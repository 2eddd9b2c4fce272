/** Compiling a whole firewall state: the base chains, the user chains, and
    the verdict every packet gets. */
module Compiler {
  import opened Bytes
  import opened AddressSets
  import opened Outcomes
  import opened Rules
  import opened Netfilter
  import opened Matching
  import opened RuleCompiler
  import opened BuiltinChains

  // ---- lists of rules ----

  datatype PerHook = PerHook(input: seq<NftRule>, output: seq<NftRule>, forward: seq<NftRule>)
  {
    function Get(h: Hook): seq<NftRule> {
      match h
      case Input => input
      case Output => output
      case ForwardHook => forward
    }

    function Add(h: Hook, rs: seq<NftRule>): PerHook {
      match h
      case Input => this.(input := input + rs)
      case Output => this.(output := output + rs)
      case ForwardHook => this.(forward := forward + rs)
    }
  }

  // The state that compiling user rules works on.
  datatype Program = Program(user: PerHook, log: PerHook, sets: Sets, id: nat)

  function AddBlock(s: Program, h: Hook, b: Block): Program
  {
    Program(s.user.Add(h, b.user), s.log.Add(h, b.log), s.sets + b.sets, b.id)
  }

  function CompileRules(s: Program, rules: seq<Rule>, v6: bool, now: int): Result<Program>
  {
    if rules == [] then Ok(s)
    else
      var init, r := CompileRules(s, rules[..|rules| - 1], v6, now), rules[|rules| - 1];
      if init.Err? then Err
      else
        var b := RuleBlock(r, v6, now, init.value.id);
        if b.Err? then Err else Ok(AddBlock(init.value, HookOf(r.direction), b.value))
  }

  // First match over one family list, for the packets of one hook.
  ghost function FirstMatch(rules: seq<Rule>, h: Hook, now: int, p: Packet, env: Env): Option<Decision>
    requires p.Valid() && forall r :: r in rules ==> r.Valid()
  {
    if rules == [] then None
    else
      var r := rules[0];
      if r.Active(now) && HookOf(r.direction) == h && Matches(r, p, env) then Some(ActionDecision(r, p, env))
      else FirstMatch(rules[1..], h, now, p, env)
  }

  lemma {:induction false} FirstMatchAppend(a: seq<Rule>, b: seq<Rule>, h: Hook, now: int, p: Packet, env: Env)
    requires p.Valid() && forall r :: r in a + b ==> r.Valid()
    ensures FirstMatch(a + b, h, now, p, env) == Or(FirstMatch(a, h, now, p, env), FirstMatch(b, h, now, p, env))
  {
    hide Matches, ActionDecision;
    if a == [] {
      assert a + b == b;
    } else {
      assert (a + b)[1..] == a[1..] + b;
      FirstMatchAppend(a[1..], b, h, now, p, env);
    }
  }

  // First match by what the compiled rules test, ports included.
  ghost function CompiledFirst(rules: seq<Rule>, h: Hook, now: int, p: Packet, env: Env): Option<Decision>
    requires p.Valid() && forall r :: r in rules ==> r.Valid()
  {
    if rules == [] then None
    else
      var d := OneMatch(rules[0], h, now, p, env);
      if d.Some? then d else CompiledFirst(rules[1..], h, now, p, env)
  }

  ghost function OneMatch(r: Rule, h: Hook, now: int, p: Packet, env: Env): Option<Decision>
    requires p.Valid() && r.Valid()
  {
    if r.Active(now) && HookOf(r.direction) == h
        && CompiledHolds(r, p, env) then Some(ActionDecision(r, p, env)) else None
  }

  lemma {:induction false} CompiledFirstAppend(a: seq<Rule>, b: seq<Rule>, h: Hook, now: int, p: Packet, env: Env)
    requires p.Valid() && forall r :: r in a + b ==> r.Valid()
    ensures CompiledFirst(a + b, h, now, p, env) ==
            Or(CompiledFirst(a, h, now, p, env), CompiledFirst(b, h, now, p, env))
  {
    hide OneMatch;
    if a == [] {
      assert a + b == b;
    } else {
      assert (a + b)[1..] == a[1..] + b;
      CompiledFirstAppend(a[1..], b, h, now, p, env);
    }
  }

  // On port-consistent rules the compiled first match is the first match.
  lemma {:induction false} ConsistentFirst(rules: seq<Rule>, h: Hook, now: int, p: Packet, env: Env)
    requires p.Valid() && WellFormed(rules)
    ensures CompiledFirst(rules, h, now, p, env) == FirstMatch(rules, h, now, p, env)
  {
    hide Matches, CompiledHolds, ActionDecision, ConsistentFor, IfacePattern, Variants, VariantHolds;
    if rules != [] {
      ConsistentFirst(rules[1..], h, now, p, env);
      assert rules[0] in rules;
      CompiledIffMatches(rules[0], p, env);
    }
  }

  ghost predicate AllCompilable(rules: seq<Rule>)
  {
    forall r :: r in rules ==> Compilable(r)
  }

  ghost predicate WellFormed(rules: seq<Rule>)
  {
    forall r :: r in rules ==> Compilable(r) && PortConsistent(r)
  }

  lemma RuleSettles(r: Rule, v6: bool, now: int, id: nat, h: Hook, depth: nat, p: Packet, env: Env)
    requires p.Valid() && Compilable(r) && ServiceChains(env) && depth > 0
    requires RuleBlock(r, v6, now, id).Ok? && SetsLoaded(RuleBlock(r, v6, now, id).value.sets, env)
    ensures Settles(if HookOf(r.direction) == h then RuleBlock(r, v6, now, id).value.user else [],
                    if p.v6 == v6 then OneMatch(r, h, now, p, env) else None, depth, p, env)
  {
    hide Settles, VariantsBlock, Variants, ServiceChains, VariantHolds, ActionDecision;
    SettlesNothing(depth, p, env);
    if r.Active(now) && HookOf(r.direction) == h {
      VariantsSettle(r, Variants(r), v6, id, depth, p, env);
      VariantsDecide(r, Variants(r), p, env);
    }
  }

  // The set table only grows.
  ghost predicate IdsBelow(sets: Sets, id: nat)
  {
    forall n :: n in sets ==> (n.Anonymous? ==> n.id <= id) && (n.Meter? ==> sets[n] == METER_BODY)
  }

  lemma RuleBlockSets(r: Rule, v6: bool, now: int, id: nat)
    requires RuleBlock(r, v6, now, id).Ok?
    ensures BlockSets(RuleBlock(r, v6, now, id).value.sets, id, RuleBlock(r, v6, now, id).value.id)
  {
    hide VariantsBlock, Variants;
    if r.Active(now) { VariantsSetsOnly(r, Variants(r), v6, id); }
  }

  lemma SetsGrow(sets: Sets, id: nat, more: Sets, id': nat)
    requires IdsBelow(sets, id) && BlockSets(more, id, id')
    ensures IdsBelow(sets + more, id')
    ensures forall n :: n in sets ==> n in sets + more && (sets + more)[n] == sets[n]
  {
  }

  lemma {:induction false} CompiledSets(s: Program, rules: seq<Rule>, v6: bool, now: int)
    requires IdsBelow(s.sets, s.id) && CompileRules(s, rules, v6, now).Ok?
    ensures var s' := CompileRules(s, rules, v6, now).value;
            && IdsBelow(s'.sets, s'.id)
            && forall n :: n in s.sets ==> n in s'.sets && s'.sets[n] == s.sets[n]
  {
    hide RuleBlock;
    if rules != [] {
      var init, r := CompileRules(s, rules[..|rules| - 1], v6, now).value, rules[|rules| - 1];
      CompiledSets(s, rules[..|rules| - 1], v6, now);
      RuleBlockSets(r, v6, now, init.id);
      SetsGrow(init.sets, init.id, RuleBlock(r, v6, now, init.id).value.sets, RuleBlock(r, v6, now, init.id).value.id);
    }
  }

  // Compiling a list appends to each user chain rules that decide a packet
  // of the list's family as its first matching compiled rule does.
  lemma {:induction false} RulesSettle(s: Program, rules: seq<Rule>, v6: bool, now: int, h: Hook, d: Option<Decision>,
                                       depth: nat, p: Packet, env: Env)
    requires p.Valid() && AllCompilable(rules) && ServiceChains(env) && depth > 0
    requires IdsBelow(s.sets, s.id) && CompileRules(s, rules, v6, now).Ok?
    requires SetsLoaded(CompileRules(s, rules, v6, now).value.sets, env)
    requires Settles(s.user.Get(h), d, depth, p, env)
    ensures Settles(CompileRules(s, rules, v6, now).value.user.Get(h),
                    if p.v6 == v6 then Or(d, CompiledFirst(rules, h, now, p, env)) else d, depth, p, env)
  {
    hide Settles, ServiceChains, RuleBlock, OneMatch, IfacePattern, Rule.Valid;
    if rules != [] {
      var prior, r := rules[..|rules| - 1], rules[|rules| - 1];
      var init := CompileRules(s, prior, v6, now).value;
      var b := RuleBlock(r, v6, now, init.id).value;
      CompiledSets(s, prior, v6, now);
      RuleBlockSets(r, v6, now, init.id);
      SetsGrow(init.sets, init.id, b.sets, b.id);
      LoadedBoth(init.sets, b.sets, env);
      RulesSettle(s, prior, v6, now, h, d, depth, p, env);
      RuleSettles(r, v6, now, init.id, h, depth, p, env);
      var dp := if p.v6 == v6 then Or(d, CompiledFirst(prior, h, now, p, env)) else d;
      var dr := if p.v6 == v6 then OneMatch(r, h, now, p, env) else None;
      SettlesOr(init.user.Get(h), dp, if HookOf(r.direction) == h then b.user else [], dr, depth, p, env);
      assert rules == prior + [r];
      CompiledFirstAppend(prior, [r], h, now, p, env);
      OneMatchIsFirst(r, h, now, p, env);
      assert CompileRules(s, rules, v6, now).value == AddBlock(init, HookOf(r.direction), b);
      AddedTo(init, HookOf(r.direction), b, h);
    }
  }

  lemma AddedTo(s: Program, at: Hook, b: Block, h: Hook)
    ensures AddBlock(s, at, b).user.Get(h) == s.user.Get(h) + if at == h then b.user else []
  {
  }

  lemma OneMatchIsFirst(r: Rule, h: Hook, now: int, p: Packet, env: Env)
    requires p.Valid() && r.Valid()
    ensures CompiledFirst([r], h, now, p, env) == OneMatch(r, h, now, p, env)
  {
    hide CompiledHolds, ActionDecision;
    assert [r][1..] == [];
  }

  lemma LoadedBoth(a: Sets, b: Sets, env: Env)
    requires SetsLoaded(a + b, env) && forall n :: n in a ==> (a + b)[n] == a[n]
    ensures SetsLoaded(a, env) && SetsLoaded(b, env)
  {
    forall n | n in b ensures n in env.sets && env.sets[n] == b[n] {
      assert n in a + b && (a + b)[n] == b[n];
    }
    forall n | n in a ensures n in env.sets && env.sets[n] == a[n] {
      assert n in a + b && (a + b)[n] == a[n];
    }
  }

  // The rules whose compilation fails: a protocol variant the compiler
  // rejects, or an unknown action.
  predicate RuleCompiles(r: Rule, v6: bool, now: int)
  {
    r.Active(now) ==> forall q :: q in Variants(r) ==> !MatchRejected(r, q, v6) && !r.action.OtherAction?
  }

  lemma {:induction false} VariantsCompile(r: Rule, qs: seq<Proto>, v6: bool, id: nat)
    ensures VariantsBlock(r, qs, v6, id).Ok? <==>
            forall q :: q in qs ==> !MatchRejected(r, q, v6) && !r.action.OtherAction?
  {
    hide MatchRejected, VariantBlock;
    if qs != [] {
      var init, q := qs[..|qs| - 1], qs[|qs| - 1];
      VariantsCompile(r, init, v6, id);
      assert qs == init + [q];
      if VariantsBlock(r, init, v6, id).Ok? {
        VariantCompiles(r, q, v6, VariantsBlock(r, init, v6, id).value.id);
        assert q in qs;
      }
    }
  }

  lemma VariantCompiles(r: Rule, q: Proto, v6: bool, id: nat)
    ensures VariantBlock(r, q, v6, id).Ok? <==> !MatchRejected(r, q, v6) && !r.action.OtherAction?
  {
    hide MatchRejected, BothPorts, LogJump, LogRules, MeterSets, LimitMatch;
  }

  lemma {:induction false} RulesCompile(s: Program, rules: seq<Rule>, v6: bool, now: int)
    ensures CompileRules(s, rules, v6, now).Ok? <==> forall r :: r in rules ==> RuleCompiles(r, v6, now)
  {
    hide MatchRejected, Variants, VariantsBlock;
    if rules != [] {
      var prior, r := rules[..|rules| - 1], rules[|rules| - 1];
      RulesCompile(s, prior, v6, now);
      assert rules == prior + [r];
      if CompileRules(s, prior, v6, now).Ok? {
        var init := CompileRules(s, prior, v6, now).value;
        VariantsCompile(r, Variants(r), v6, init.id);
        assert RuleBlock(r, v6, now, init.id).Ok? <==> RuleCompiles(r, v6, now);
        assert r in rules;
      }
    }
  }

  // ---- the logging chains of user rules stay harmless ----

  predicate NoVerdicts(es: NftRule)
  {
    forall j :: 0 <= j < |es| ==> !es[j].Verdict?
  }

  lemma MatchHasNoVerdict(r: Rule, q: Proto, v6: bool, id: nat)
    requires RuleMatch(r, q, v6, id).Ok?
    ensures NoVerdicts(RuleMatch(r, q, v6, id).value.exprs)
  {
    hide EndpointMatch, BothPorts, IfaceExprs, ProtoExprs, IcmpExprs, NfprotoMatch;
    EndpointHasNoVerdict(r.src, true, v6);
    EndpointHasNoVerdict(r.dst, false, v6);
    PortsHaveNoVerdict(r, q, id);
    FixedHaveNoVerdict(r, q, v6);
  }

  lemma EndpointHasNoVerdict(a: AddrSpec, source: bool, v6: bool)
    ensures NoVerdicts(EndpointMatch(a, source, v6))
  {
    hide CidrMask, Net.First, SetKey;
  }

  lemma PortsHaveNoVerdict(r: Rule, q: Proto, id: nat)
    ensures NoVerdicts(BothPorts(r, q, id).exprs)
  {
    hide PortBytes, PortSet, Applicable;
  }

  lemma FixedHaveNoVerdict(r: Rule, q: Proto, v6: bool)
    ensures NoVerdicts(NfprotoMatch(v6)) && NoVerdicts(ProtoExprs(q)) && NoVerdicts(IcmpExprs(r.icmpType))
    ensures NoVerdicts(IfaceExprs(Iifname, r.ifaceIn)) && NoVerdicts(IfaceExprs(Oifname, r.ifaceOut))
  {
    hide WildcardMask, PadName;
  }

  lemma {:induction false} VariantsLogHarmless(r: Rule, qs: seq<Proto>, v6: bool, id: nat)
    requires VariantsBlock(r, qs, v6, id).Ok?
    ensures Harmless(VariantsBlock(r, qs, v6, id).value.log)
  {
    hide RuleMatch, ActionRules;
    if qs != [] {
      var init, q := VariantsBlock(r, qs[..|qs| - 1], v6, id).value, qs[|qs| - 1];
      VariantsLogHarmless(r, qs[..|qs| - 1], v6, id);
      MatchHasNoVerdict(r, q, v6, init.id);
    }
  }

  lemma {:induction false} LogsHarmless(s: Program, rules: seq<Rule>, v6: bool, now: int, h: Hook)
    requires CompileRules(s, rules, v6, now).Ok? && Harmless(s.log.Get(h))
    ensures Harmless(CompileRules(s, rules, v6, now).value.log.Get(h))
  {
    hide HarmlessRule, VariantsBlock, Variants;
    if rules != [] {
      var init, r := CompileRules(s, rules[..|rules| - 1], v6, now).value, rules[|rules| - 1];
      LogsHarmless(s, rules[..|rules| - 1], v6, now, h);
      if r.Active(now) { VariantsLogHarmless(r, Variants(r), v6, init.id); }
    }
  }

  // ---- the state and its effective settings ----

  datatype IPSet = IPSet(name: string, sources: Sources)

  datatype Ban = Ban(source: Option<Net>, expiresAt: int)

  datatype Policies = Policies(input: Policy, output: Policy, forward: Policy)
  {
    function Get(h: Hook): Policy {
      match h
      case Input => input
      case Output => output
      case ForwardHook => forward
    }
  }

  datatype State = State(rules4: seq<Rule>, rules6: seq<Rule>, policies: Policies, logging: Level,
                         ipv6: bool, panic: bool, sets: seq<IPSet>, bans: seq<Ban>, natRules: seq<NatRule>)

  // What decides whether a NAT rule compiles: for each address text that
  // names one, whether it is IPv6, and what the target splits into.
  datatype NatRule = NatRule(kind: NatKind, proto: Proto, src: Option<bool>, dst: Option<bool>, toDest: Option<bool>,
                             toHost: Option<bool>, toPort: NatPort)
  {
    predicate V6() { src == Some(true) || dst == Some(true) || toDest == Some(true) }
  }

  datatype NatKind = Masquerade | Dnat | OtherNat

  datatype NatPort = NoPort | GoodPort | BadPort

  predicate NatCompiles(n: NatRule)
  {
    && (n.proto == NoProto || n.proto == AnyProto || ProtoNum(n.proto).Some?)
    && !n.kind.OtherNat?
    && (n.kind.Dnat? ==> n.toHost == Some(n.V6()) && !n.toPort.BadPort?)
  }

  // /etc/default values: recognised policy words and the IPV6 switch.
  datatype Etc = Etc(input: Option<Policy>, output: Option<Policy>, forward: Option<Policy>, ipv6: Option<bool>)

  function Override(stored: Policy, word: Option<Policy>): Policy
  {
    if word.Some? && !word.value.OtherPolicy? then word.value else stored
  }

  function EffectivePolicies(st: State, etc: Etc): Policies
  {
    Policies(Override(st.policies.input, etc.input), Override(st.policies.output, etc.output),
             Override(st.policies.forward, etc.forward))
  }

  function EffectiveIpv6(st: State, etc: Etc): bool
  {
    if etc.ipv6.Some? then etc.ipv6.value else st.ipv6
  }

  // The source prefixes of the bans still in force.
  function LiveBans(bans: seq<Ban>, now: int): (s: Sources)
    ensures forall x :: x in s <==> exists b :: b in bans && b.expiresAt > now && b.source == x
  {
    if bans == [] then []
    else
      var init, b := LiveBans(bans[..|bans| - 1], now), bans[|bans| - 1];
      if b.expiresAt > now then init + [b.source] else init
  }

  // ---- base chains ----

  function JumpTo(c: Chain): seq<NftRule> { [Guarded([], Jump(c))] }

  // With IPv6 off: loopback passes, all other IPv6 is dropped.
  function Guards(h: Hook, ipv6: bool): seq<NftRule>
  {
    if ipv6 then []
    else
      (match h
       case Input => [Guarded(NfprotoMatch(true) + IfaceMatch(Iifname, LO), Accept)]
       case Output => [Guarded(NfprotoMatch(true) + IfaceMatch(Oifname, LO), Accept)]
       case ForwardHook => [])
      + [Guarded(NfprotoMatch(true), Drop)]
  }

  function GuardDecision(h: Hook, ipv6: bool, p: Packet): Option<Decision>
  {
    if ipv6 || !p.v6 then None
    else if (h == Input && p.iif == LO) || (h == Output && p.oif == LO) then Some(Accepted)
    else Some(Dropped)
  }

  function BaseParts(h: Hook, ipv6: bool): seq<seq<NftRule>>
  {
    [Guards(h, ipv6), JumpTo(BeforeLogging(h)), JumpTo(Before(h)), JumpTo(User(h)), JumpTo(After(h)),
     JumpTo(AfterLogging(h)), JumpTo(RejectChain(h)), JumpTo(Track(h))]
  }

  function BaseChain(h: Hook, ipv6: bool): seq<NftRule> { Concat(BaseParts(h, ipv6)) }

  lemma GuardsSettle(h: Hook, ipv6: bool, depth: nat, p: Packet, env: Env)
    requires p.Valid()
    ensures Settles(Guards(h, ipv6), GuardDecision(h, ipv6, p), depth, p, env)
  {
    hide Settles, Tests, NfprotoMatch, IfaceMatch;
    SettlesNothing(depth, p, env);
    if !ipv6 {
      NfprotoTests(true, p, env);
      FinalSettles(NfprotoMatch(true), p.v6 == true, Dropped, depth, p, env);
      var drop := [Guarded(NfprotoMatch(true), Drop)];
      if h == ForwardHook {
        assert Guards(h, ipv6) == [] + drop == drop;
      } else {
        var key := if h == Input then Iifname else Oifname;
        var lo := (if h == Input then p.iif else p.oif) == LO;
        LoTests(key, p, env);
        Both(NfprotoMatch(true), p.v6 == true, IfaceMatch(key, LO), lo, p, env);
        FinalSettles(NfprotoMatch(true) + IfaceMatch(key, LO), p.v6 && lo, Accepted, depth, p, env);
        SettlesOr([Guarded(NfprotoMatch(true) + IfaceMatch(key, LO), Accept)], When(p.v6 && lo, Accepted),
                  drop, When(p.v6, Dropped), depth, p, env);
      }
    }
  }

  // ---- a compiled state ----

  function Rank(c: Chain): nat
  {
    match c
    case Base(_) => 3
    case Before(_) => 2
    case User(_) => 1
    case After(_) => 1
    case NotLocal => 1
    case _ => 0
  }

  // The user rules start from the logging head and the address sets.
  function UserStart(level: Level, sets: Sets, id: nat): Program
  {
    Program(PerHook([], [], []), PerHook(UserLoggingHead(level), UserLoggingHead(level), UserLoggingHead(level)), sets,
        id)
  }

  function CompileUser(st: State, now: int, sets: Sets, id: nat): Result<Program>
  {
    var four := CompileRules(UserStart(st.logging, sets, id), st.rules4, false, now);
    if four.Err? then Err else CompileRules(four.value, st.rules6, true, now)
  }

  // Every chain exists and holds exactly what compile() puts there.
  ghost predicate ChainsLoaded(chains: map<Chain, seq<NftRule>>, st: State, pol: Policies, ipv6: bool, prog: Program)
  {
    && (forall c: Chain :: c in chains)
    && (forall h :: chains[Base(h)] == BaseChain(h, ipv6) && chains[Before(h)] == BeforeChain(h)
                 && chains[User(h)] == prog.user.Get(h) && chains[UserLogging(h)] == prog.log.Get(h)
                 && chains[After(h)] == AfterChain(h) && chains[RejectChain(h)] == RejectRules(pol.Get(h))
                 && chains[Track(h)] == TrackRules(pol.Get(h)) && chains[SkipToPolicy(h)] == SkipRules(pol.Get(h))
                 && chains[BeforeLogging(h)] == BeforeLoggingRules(st.logging)
                 && chains[AfterLogging(h)] == AfterLoggingRules(st.logging, pol.Get(h)))
    && chains[NotLocal] == NotLocalChain() && chains[UserEgress] == []
    && chains[LogDeny] == LogDenyRules(st.logging) && chains[LogAllow] == LogAllowRules(st.logging)
    && chains[UserLimit] == UserLimitRules(st.logging) && chains[UserLimitAccept] == [Guarded([], Accept)]
  }

  ghost predicate Loaded(chains: map<Chain, seq<NftRule>>, sets: Sets, st: State, pol: Policies, ipv6: bool, now: int,
      prog: Program)
  {
    && ChainsLoaded(chains, st, pol, ipv6, prog)
    && sets == prog.sets
    && exists start: Sets, id: nat ::
          && AddressSetsOnly(start) && BansLoaded(start, st, now) && NamedLoaded(start, st.sets)
          && CompileUser(st, now, start, id) == Ok(prog)
  }

  // Before the user rules there are only the ban sets and the named sets.
  ghost predicate AddressSetsOnly(sets: Sets)
  {
    forall n :: n in sets ==> n.ThreatBans? || n.UserSet?
  }

  ghost predicate BansLoaded(sets: Sets, st: State, now: int)
  {
    var live := LiveBans(st.bans, now);
    && ValidSources(live)
    && ThreatBans(false) in sets && sets[ThreatBans(false)].interval && Encodes(sets[ThreatBans(false)].elems, live, 4)
    && ThreatBans(true) in sets && sets[ThreatBans(true)].interval && Encodes(sets[ThreatBans(true)].elems, live, 16)
  }

  // Both halves of a named set. Where two sets claim the same kernel name
  // ("a6" and the IPv6 half of "a") only the later one is promised.
  ghost predicate NamedLoaded(sets: Sets, named: seq<IPSet>)
  {
    forall i :: 0 <= i < |named| && Unshadowed(named, i) ==> HalvesLoaded(sets, named[i])
  }

  predicate Unshadowed(named: seq<IPSet>, i: nat)
    requires i < |named|
  {
    forall j, v, w :: i < j < |named| ==> SetKey(named[j].name, v) != SetKey(named[i].name, w)
  }

  ghost predicate HalvesLoaded(sets: Sets, s: IPSet)
  {
    var name4, name6 := UserSet(SetKey(s.name, false)), UserSet(SetKey(s.name, true));
    && ValidSources(s.sources)
    && name4 in sets && sets[name4].interval && Encodes(sets[name4].elems, s.sources, 4)
    && name6 in sets && sets[name6].interval && Encodes(sets[name6].elems, s.sources, 16)
  }

  lemma LoadedServices(env: Env, st: State, pol: Policies, ipv6: bool, now: int, prog: Program)
    requires Loaded(env.chains, env.sets, st, pol, ipv6, now, prog)
    ensures ServiceChains(env) && BeforeTargets(env)
  {
    hide Harmless, NotLocalChain, LogDenyRules, LogAllowRules, AfterLoggingRules, BeforeLoggingRules, UserLoggingHead;
    hide BaseChain, BeforeChain, AfterChain, TrackRules, BansLoaded, NamedLoaded, CompileRules;
    var sets: Sets, id: nat :| AddressSetsOnly(sets) && BansLoaded(sets, st, now) && NamedLoaded(sets, st.sets)
                               && CompileUser(st, now, sets, id) == Ok(prog);
    var start := UserStart(st.logging, sets, id);
    var four := CompileRules(start, st.rules4, false, now).value;
    LoggingHarmless(st.logging, DenyPolicy);
    forall h ensures Harmless(env.chains[UserLogging(h)]) {
      LogsHarmless(start, st.rules4, false, now, h);
      LogsHarmless(four, st.rules6, true, now, h);
    }
    LimitLogHarmless(st.logging);
  }

  lemma LimitLogHarmless(level: Level)
    ensures exists log :: Harmless(log) && NeverReturns(log) && UserLimitRules(level) == log + [Guarded([], RejectWith)]
  {
    var log := if level != Off then [[RateLimit(3, 5), LogPrefix("[BFW LIMIT BLOCK] ")]] else [];
    assert Harmless(log) && NeverReturns(log) && UserLimitRules(level) == log + [Guarded([], RejectWith)];
  }

  ghost predicate Sound(st: State)
  {
    WellFormed(st.rules4) && WellFormed(st.rules6)
  }

  lemma ChainsOf(env: Env, st: State, pol: Policies, ipv6: bool, now: int, prog: Program, h: Hook)
    requires Loaded(env.chains, env.sets, st, pol, ipv6, now, prog)
    ensures forall c: Chain :: c in env.chains
    ensures env.chains[Base(h)] == BaseChain(h, ipv6) && env.chains[Before(h)] == BeforeChain(h)
    ensures env.chains[User(h)] == prog.user.Get(h) && env.chains[After(h)] == AfterChain(h)
    ensures env.chains[RejectChain(h)] == RejectRules(pol.Get(h)) && env.chains[Track(h)] == TrackRules(pol.Get(h))
    ensures env.chains[SkipToPolicy(h)] == SkipRules(pol.Get(h))
    ensures Harmless(env.chains[BeforeLogging(h)]) && Harmless(env.chains[AfterLogging(h)])
    ensures env.sets == prog.sets
  {
    LoggingHarmless(st.logging, pol.Get(h));
  }

  lemma UserSource(env: Env, st: State, pol: Policies, ipv6: bool, now: int, prog: Program)
    returns (sets: Sets, id: nat, four: Program)
    requires Loaded(env.chains, env.sets, st, pol, ipv6, now, prog)
    ensures AddressSetsOnly(sets) && BansLoaded(sets, st, now) && NamedLoaded(sets, st.sets)
    ensures CompileRules(UserStart(st.logging, sets, id), st.rules4, false, now) == Ok(four)
    ensures CompileRules(four, st.rules6, true, now) == Ok(prog)
  {
    sets, id :| AddressSetsOnly(sets) && BansLoaded(sets, st, now) && NamedLoaded(sets, st.sets)
                && CompileUser(st, now, sets, id) == Ok(prog);
    four := CompileRules(UserStart(st.logging, sets, id), st.rules4, false, now).value;
  }

  // The user chain of a hook decides a packet as the first enabled,
  // unexpired rule of the packet's family list whose compiled match holds.
  lemma {:induction false} UserChainDecides(env: Env, st: State, pol: Policies, ipv6: bool, now: int, prog: Program,
                         h: Hook, depth: nat, p: Packet)
    requires Loaded(env.chains, env.sets, st, pol, ipv6, now, prog) && p.Valid() && depth > 0
    requires AllCompilable(st.rules4) && AllCompilable(st.rules6)
    ensures Settles(env.chains[User(h)], CompiledFirst(if p.v6 then st.rules6 else st.rules4, h, now, p, env), depth, p,
            env)
  {
    hide Loaded, Settles, ServiceChains, BeforeTargets, BansLoaded, NamedLoaded, CompiledFirst, AllCompilable;
    LoadedServices(env, st, pol, ipv6, now, prog);
    ChainsOf(env, st, pol, ipv6, now, prog, h);
    var sets, id, four := UserSource(env, st, pol, ipv6, now, prog);
    BothListsSettle(env, st, now, sets, id, four, prog, h, depth, p);
  }

  // For port-consistent rules that is the first rule the packet matches.
  lemma {:induction false} UserChainIsFirstMatch(env: Env, st: State, pol: Policies, ipv6: bool, now: int,
      prog: Program, h: Hook, depth: nat, p: Packet)
    requires Loaded(env.chains, env.sets, st, pol, ipv6, now, prog) && Sound(st) && p.Valid() && depth > 0
    ensures Settles(env.chains[User(h)], FirstMatch(if p.v6 then st.rules6 else st.rules4, h, now, p, env), depth, p,
            env)
  {
    hide Loaded, Settles, FirstMatch, CompiledFirst, PortConsistent, Compilable;
    UserChainDecides(env, st, pol, ipv6, now, prog, h, depth, p);
    ConsistentFirst(if p.v6 then st.rules6 else st.rules4, h, now, p, env);
  }

  lemma BothListsSettle(env: Env, st: State, now: int, sets: Sets, id: nat, four: Program, prog: Program,
                        h: Hook, depth: nat, p: Packet)
    requires AllCompilable(st.rules4) && AllCompilable(st.rules6)
    requires p.Valid() && depth > 0 && ServiceChains(env) && AddressSetsOnly(sets) && env.sets == prog.sets
    requires CompileRules(UserStart(st.logging, sets, id), st.rules4, false, now) == Ok(four)
    requires CompileRules(four, st.rules6, true, now) == Ok(prog)
    ensures Settles(prog.user.Get(h), CompiledFirst(if p.v6 then st.rules6 else st.rules4, h, now, p, env), depth, p,
            env)
  {
    hide Settles, ServiceChains, CompileRules, CompiledFirst, IfacePattern, Rule.Valid, UserLoggingHead;
    var start := UserStart(st.logging, sets, id);
    CompiledSets(start, st.rules4, false, now);
    CompiledSets(four, st.rules6, true, now);
    SettlesNothing(depth, p, env);
    RulesSettle(start, st.rules4, false, now, h, None, depth, p, env);
    var d := if p.v6 == false then Or(None, CompiledFirst(st.rules4, h, now, p, env)) else None;
    RulesSettle(four, st.rules6, true, now, h, d, depth, p, env);
  }

  // The verdict of a base chain: the IPv6 guard, the before chain, the
  // first rule whose compiled match holds, else the policy. Nothing after
  // the user chain changes it.
  lemma {:induction false} CompiledBaseVerdict(env: Env, st: State, pol: Policies, ipv6: bool, now: int, prog: Program,
                            h: Hook, depth: nat, p: Packet)
    requires Loaded(env.chains, env.sets, st, pol, ipv6, now, prog) && p.Valid() && depth >= 3
    requires AllCompilable(st.rules4) && AllCompilable(st.rules6)
    ensures RunBase(h, BasePolicy(pol.Get(h)), depth, p, env) ==
            Or(FirstOf([GuardDecision(h, ipv6, p), BeforeDecision(h, p, env),
                        CompiledFirst(if p.v6 then st.rules6 else st.rules4, h, now, p, env)]),
               Some(PolicyVerdict(pol.Get(h))))
  {
    hide Loaded, Settles, BeforeTargets, ServiceChains, CompiledFirst, FirstOf, BeforeDecision, GuardDecision, Or,
         RunBase, PolicyVerdict, BasePolicy, Policies.Get, BaseChain, BeforeChain, AfterChain, RejectRules, TrackRules,
         SkipRules, Harmless, IfacePattern, Rule.Valid;
    ChainsOf(env, st, pol, ipv6, now, prog, h);
    LoadedServices(env, st, pol, ipv6, now, prog);
    var rules := if p.v6 then st.rules6 else st.rules4;
    assert forall r :: r in rules ==> r.Valid();
    UserChainDecides(env, st, pol, ipv6, now, prog, h, depth - 1, p);
    BaseSettles(env, st, pol, ipv6, now, prog, h, CompiledFirst(rules, h, now, p, env), depth, p);
  }

  // For port-consistent rules that is the first rule the packet matches.
  lemma {:induction false} BaseVerdict(env: Env, st: State, pol: Policies, ipv6: bool, now: int, prog: Program,
                    h: Hook, depth: nat, p: Packet)
    requires Loaded(env.chains, env.sets, st, pol, ipv6, now, prog) && Sound(st) && p.Valid() && depth >= 3
    ensures RunBase(h, BasePolicy(pol.Get(h)), depth, p, env) ==
            Or(FirstOf([GuardDecision(h, ipv6, p), BeforeDecision(h, p, env),
                        FirstMatch(if p.v6 then st.rules6 else st.rules4, h, now, p, env)]),
               Some(PolicyVerdict(pol.Get(h))))
  {
    hide Loaded, FirstMatch, CompiledFirst, FirstOf, BeforeDecision, GuardDecision, Or, RunBase, PolicyVerdict,
         BasePolicy, Policies.Get, Rule.Valid, IfacePattern, PortConsistent;
    var rules := if p.v6 then st.rules6 else st.rules4;
    assert forall r :: r in rules ==> r.Valid();
    CompiledBaseVerdict(env, st, pol, ipv6, now, prog, h, depth, p);
    ConsistentFirst(rules, h, now, p, env);
  }

  // The chains that run before the user chain.
  lemma HeadSettles(env: Env, h: Hook, ipv6: bool, depth: nat, p: Packet)
    requires p.Valid() && depth >= 3 && BeforeTargets(env) && forall c: Chain :: c in env.chains
    requires env.chains[Before(h)] == BeforeChain(h) && Harmless(env.chains[BeforeLogging(h)])
    ensures Settles(Guards(h, ipv6), GuardDecision(h, ipv6, p), depth, p, env)
    ensures Settles(JumpTo(BeforeLogging(h)), None, depth, p, env)
    ensures Settles(JumpTo(Before(h)), BeforeDecision(h, p, env), depth, p, env)
  {
    hide Settles, Tests, Harmless, BeforeChain, BeforeDecision, Guards, GuardDecision, BeforeTargets, Guarded;
    TestsNothing(p, env);
    GuardsSettle(h, ipv6, depth, p, env);
    HarmlessJump([], true, BeforeLogging(h), depth, p, env);
    BeforeSettles(h, depth - 1, p, env);
    JumpSettles([], true, Before(h), BeforeDecision(h, p, env), depth, p, env);
  }

  // The chains that run after the user chain: each falls through or gives
  // the policy's verdict.
  lemma TailSettles(env: Env, pol: Policy, h: Hook, depth: nat, p: Packet) returns (a: bool, k: bool)
    requires p.Valid() && depth >= 3 && forall c: Chain :: c in env.chains
    requires env.chains[After(h)] == AfterChain(h)
    requires env.chains[SkipToPolicy(h)] == SkipRules(pol) && env.chains[RejectChain(h)] == RejectRules(pol)
    requires env.chains[Track(h)] == TrackRules(pol) && Harmless(env.chains[AfterLogging(h)])
    ensures Settles(JumpTo(After(h)), When(a, PolicyVerdict(pol)), depth, p, env)
    ensures Settles(JumpTo(AfterLogging(h)), None, depth, p, env)
    ensures Settles(JumpTo(RejectChain(h)), When(pol == RejectPolicy, Rejected), depth, p, env)
    ensures Settles(JumpTo(Track(h)), When(k, PolicyVerdict(pol)), depth, p, env)
  {
    hide Settles, Tests, Harmless, AfterChain, SkipRules, RejectRules, TrackRules, Guarded, When;
    TestsNothing(p, env);
    AfterSettles(h, pol, depth - 1, p, env);
    a :| Settles(AfterChain(h), When(a, PolicyVerdict(pol)), depth - 1, p, env);
    JumpSettles([], true, After(h), When(a, PolicyVerdict(pol)), depth, p, env);
    HarmlessJump([], true, AfterLogging(h), depth, p, env);
    RejectSettles(pol, depth - 1, p, env);
    JumpSettles([], true, RejectChain(h), When(pol == RejectPolicy, Rejected), depth, p, env);
    TrackSettles(pol, depth - 1, p, env);
    k :| Settles(TrackRules(pol), When(k, PolicyVerdict(pol)), depth - 1, p, env);
    JumpSettles([], true, Track(h), When(k, PolicyVerdict(pol)), depth, p, env);
  }

  lemma BaseSettles(env: Env, st: State, pol: Policies, ipv6: bool, now: int, prog: Program,
                    h: Hook, user: Option<Decision>, depth: nat, p: Packet)
    requires Loaded(env.chains, env.sets, st, pol, ipv6, now, prog) && p.Valid() && depth >= 3 && BeforeTargets(env)
    requires User(h) in env.chains && Settles(env.chains[User(h)], user, depth - 1, p, env)
    ensures Base(h) in env.chains
    ensures RunBase(h, BasePolicy(pol.Get(h)), depth, p, env) ==
            Or(FirstOf([GuardDecision(h, ipv6, p), BeforeDecision(h, p, env), user]), Some(PolicyVerdict(pol.Get(h))))
  {
    hide Loaded, Settles, BeforeTargets, RunChain, Concat, FirstOf, Tests, Harmless, Guards, GuardDecision;
    hide BeforeChain, BeforeDecision, AfterChain, TrackRules, RejectRules, SkipRules, When, Or, Guarded, PolicyVerdict,
         BasePolicy;
    ChainsOf(env, st, pol, ipv6, now, prog, h);
    HeadSettles(env, h, ipv6, depth, p);
    TestsNothing(p, env);
    JumpSettles([], true, User(h), user, depth, p, env);
    var a, k := TailSettles(env, pol.Get(h), h, depth, p);
    var verdict := PolicyVerdict(pol.Get(h));
    var g, b, r := GuardDecision(h, ipv6, p), BeforeDecision(h, p, env), When(pol.Get(h) == RejectPolicy, Rejected);
    var ds := [g, None, b, user, When(a, verdict), None, r, When(k, verdict)];
    assert AllSettle(BaseParts(h, ipv6), ds, depth, p, env);
    ConcatSettles(BaseParts(h, ipv6), ds, depth, p, env);
    SettlesAt(env.chains[Base(h)], FirstOf(ds), depth, p, env);
    EightParts(g, b, user, When(a, verdict), r, When(k, verdict));
    PolicyLast(pol.Get(h), a, k, FirstOf([g, b, user]));
    BaseOutcome(h, BasePolicy(pol.Get(h)), FirstOf(ds), depth, p, env);
  }

  lemma BaseOutcome(h: Hook, policy: Decision, d: Option<Decision>, depth: nat, p: Packet, env: Env)
    requires Base(h) in env.chains && OutcomeIs(RunChain(env.chains[Base(h)], depth, p, env, 0), d)
    ensures RunBase(h, policy, depth, p, env) == Or(d, Some(policy))
  {
    hide RunChain;
  }

  lemma SettlesAt(rules: seq<NftRule>, d: Option<Decision>, depth: nat, p: Packet, env: Env)
    requires Settles(rules, d, depth, p, env)
    ensures OutcomeIs(RunChain(rules, depth, p, env, 0), d)
  {
  }

  lemma FirstOfCons(d: Option<Decision>, ds: seq<Option<Decision>>)
    ensures FirstOf([d] + ds) == Or(d, FirstOf(ds))
  {
    assert ([d] + ds)[1..] == ds;
  }

  lemma {:induction false} FirstOfAppend(a: seq<Option<Decision>>, b: seq<Option<Decision>>)
    ensures FirstOf(a + b) == Or(FirstOf(a), FirstOf(b))
  {
    if a == [] {
      assert a + b == b;
    } else {
      assert (a + b)[1..] == a[1..] + b;
      FirstOfAppend(a[1..], b);
    }
  }

  lemma FirstOfTwo(a: Option<Decision>, b: Option<Decision>)
    ensures FirstOf([a, b]) == Or(a, b)
  {
    assert [a, b] == [a] + [b] && [b] == [b] + [];
    FirstOfCons(b, []);
    FirstOfCons(a, [b]);
  }

  lemma EightParts(g: Option<Decision>, b: Option<Decision>, u: Option<Decision>, a: Option<Decision>,
                   r: Option<Decision>, k: Option<Decision>)
    ensures FirstOf([g, None, b, u, a, None, r, k]) == Or(FirstOf([g, b, u]), Or(a, Or(r, k)))
  {
    hide FirstOf;
    assert [g, None, b, u, a, None, r, k] == [g, None] + ([b, u] + ([a, None] + [r, k]));
    FirstOfAppend([g, None], [b, u] + ([a, None] + [r, k]));
    FirstOfAppend([b, u], [a, None] + [r, k]);
    FirstOfAppend([a, None], [r, k]);
    FirstOfTwo(g, None);
    FirstOfTwo(b, u);
    FirstOfTwo(a, None);
    FirstOfTwo(r, k);
    assert [g, b, u] == [g] + [b, u];
    FirstOfCons(g, [b, u]);
  }

  // Whether or not the after, reject and track chains speak up, the
  // policy's verdict comes out.
  lemma PolicyLast(pol: Policy, a: bool, k: bool, head: Option<Decision>)
    ensures var verdict := PolicyVerdict(pol);
            var tail := Or(When(a, verdict), Or(When(pol == RejectPolicy, Rejected), When(k, verdict)));
            Or(Or(head, tail), Some(BasePolicy(pol))) == Or(head, Some(verdict))
  {
  }

  // ---- the jump graph ----

  // Every jump of the rule goes to a chain of smaller rank.
  predicate RuleBelow(rule: NftRule, bound: nat)
  {
    forall j :: 0 <= j < |rule| && rule[j].Verdict? && rule[j].verdict.Jump? ==> Rank(rule[j].verdict.target) < bound
  }

  predicate AllBelow(rules: seq<NftRule>, bound: nat)
  {
    forall i :: 0 <= i < |rules| ==> RuleBelow(rules[i], bound)
  }

  lemma GuardedBelow(exprs: NftRule, v: Verdict, bound: nat)
    requires NoVerdicts(exprs) && (v.Jump? ==> Rank(v.target) < bound)
    ensures RuleBelow(Guarded(exprs, v), bound)
  {
  }

  lemma {:induction false} ConcatBelow(parts: seq<seq<NftRule>>, bound: nat)
    requires forall i :: 0 <= i < |parts| ==> AllBelow(parts[i], bound)
    ensures AllBelow(Concat(parts), bound)
  {
    hide RuleBelow;
    if parts != [] { ConcatBelow(parts[1..], bound); }
  }

  lemma GuardAllBelow(ms: seq<NftRule>, v: Verdict, bound: nat)
    requires (forall i :: 0 <= i < |ms| ==> NoVerdicts(ms[i])) && (v.Jump? ==> Rank(v.target) < bound)
    ensures AllBelow(GuardAll(ms, v), bound)
  {
    hide NoVerdicts, RuleBelow, Guarded;
    forall i | 0 <= i < |ms| ensures RuleBelow(GuardAll(ms, v)[i], bound) {
      GuardedBelow(ms[i], v, bound);
    }
  }

  lemma BeforeBelow(h: Hook)
    ensures AllBelow(BeforeChain(h), 2)
  {
    hide AllBelow, RuleBelow, PortBytes, CidrMask, Net.First, WildcardMask, PadName, Concat, IcmpAccepts, Icmp6Matches,
         GuardAll, LoRule, Rh0Rule, BanRules, EstablishedRule, InvalidRules, DhcpRules, NotLocalRule, MulticastMatches;
    IcmpBelow(true, REPLY6);
    IcmpBelow(false, ERRORS4);
    IcmpBelow(true, MOBILE6);
    Icmp6Below(V6_HEAD + V6_TAIL);
    Icmp6Below(V6_HEAD + [Plain(129)] + V6_TAIL);
    Icmp6Below(V6_HEAD + [Plain(129)]);
    GuardedPartsBelow();
    SingleRulesBelow();
    ConcatBelow(BeforeParts(h), 2);
  }

  lemma IcmpBelow(v6: bool, types: seq<byte>)
    ensures AllBelow(GuardAll(IcmpAccepts(v6, types), Accept), 2)
  {
    hide GuardAll, RuleBelow;
    forall i | 0 <= i < |types| ensures NoVerdicts(IcmpAccepts(v6, types)[i]) {}
    GuardAllBelow(IcmpAccepts(v6, types), Accept, 2);
  }

  lemma GuardedPartsBelow()
    ensures AllBelow(GuardAll(MulticastMatches(), Accept), 2) && AllBelow(DhcpRules(), 2) && AllBelow(BanRules(), 2)
  {
    hide GuardAll, RuleBelow, PortBytes, CidrMask, Net.First;
    UdpHasNoVerdict();
    GuardAllBelow(MulticastMatches(), Accept, 2);
    GuardAllBelow([UdpMatch(false, AnyAddr, Some(67), AnyAddr, 68),
        UdpMatch(true, LINK_LOCAL, Some(547), LINK_LOCAL, 546)], Accept, 2);
    GuardAllBelow([BanMatch(false), BanMatch(true)], Drop, 2);
  }

  lemma SingleRulesBelow()
    ensures AllBelow(LoRule(Iifname), 2) && AllBelow(LoRule(Oifname), 2) && AllBelow(Rh0Rule(), 2)
    ensures AllBelow(EstablishedRule(), 2) && AllBelow(InvalidRules(), 2) && AllBelow(NotLocalRule(), 2)
    ensures AllBelow(JumpTo(UserEgress), 2)
  {
    hide PadName, WildcardMask;
  }

  lemma UdpHasNoVerdict()
    ensures forall v6, src, sport, dst, dport :: NoVerdicts(UdpMatch(v6, src, sport, dst, dport))
  {
    hide PortBytes, CidrMask, Net.First;
  }

  lemma Icmp6Below(rs: seq<Icmp6>)
    ensures AllBelow(GuardAll(Icmp6Matches(rs), Accept), 2)
  {
    hide GuardAll, CidrMask, Net.First;
    forall i | 0 <= i < |rs| ensures NoVerdicts(Icmp6Matches(rs)[i]) {}
    GuardAllBelow(Icmp6Matches(rs), Accept, 2);
  }

  lemma AfterBelow(h: Hook)
    ensures AllBelow(AfterChain(h), 1)
  {
    hide GuardAll, RuleBelow, PortBytes;
    UdpHasNoVerdict();
    assert NoVerdicts(TcpMatch(139)) && NoVerdicts(TcpMatch(445)) && NoVerdicts(NfprotoMatch(false) + FibMatch(3));
    hide UdpMatch, TcpMatch, NoVerdicts;
    GuardAllBelow(AfterMatches(), Jump(SkipToPolicy(Input)), 1);
  }

  lemma LimitHasNoVerdict(r: Rule, q: Proto, v6: bool, exprs: NftRule)
    requires NoVerdicts(exprs)
    ensures NoVerdicts(LimitMatch(r, q, v6, exprs))
  {
  }

  lemma VariantBelow(r: Rule, q: Proto, v6: bool, id: nat)
    requires VariantBlock(r, q, v6, id).Ok?
    ensures AllBelow(VariantBlock(r, q, v6, id).value.user, 1)
  {
    hide RuleMatch, LimitMatch, Guarded, RuleBelow, NoVerdicts;
    var exprs := RuleMatch(r, q, v6, id).value.exprs;
    MatchHasNoVerdict(r, q, v6, id);
    LimitHasNoVerdict(r, q, v6, exprs);
    GuardedBelow(exprs, Jump(UserLogging(HookOf(r.direction))), 1);
    GuardedBelow(exprs, Accept, 1);
    GuardedBelow(exprs, Drop, 1);
    GuardedBelow(exprs, RejectWith, 1);
    GuardedBelow(LimitMatch(r, q, v6, exprs), Jump(UserLimit), 1);
    GuardedBelow(exprs, Jump(UserLimitAccept), 1);
  }

  lemma {:induction false} VariantsBelow(r: Rule, qs: seq<Proto>, v6: bool, id: nat)
    requires VariantsBlock(r, qs, v6, id).Ok?
    ensures AllBelow(VariantsBlock(r, qs, v6, id).value.user, 1)
  {
    hide VariantBlock, RuleBelow;
    if qs != [] {
      VariantsBelow(r, qs[..|qs| - 1], v6, id);
      VariantBelow(r, qs[|qs| - 1], v6, VariantsBlock(r, qs[..|qs| - 1], v6, id).value.id);
    }
  }

  lemma {:induction false} UserBelow(s: Program, rules: seq<Rule>, v6: bool, now: int, h: Hook)
    requires CompileRules(s, rules, v6, now).Ok? && AllBelow(s.user.Get(h), 1)
    ensures AllBelow(CompileRules(s, rules, v6, now).value.user.Get(h), 1)
  {
    hide VariantsBlock, Variants, RuleBelow;
    if rules != [] {
      var init, r := CompileRules(s, rules[..|rules| - 1], v6, now).value, rules[|rules| - 1];
      UserBelow(s, rules[..|rules| - 1], v6, now, h);
      if r.Active(now) { VariantsBelow(r, Variants(r), v6, init.id); }
    }
  }

  lemma HarmlessBelow(rules: seq<NftRule>, bound: nat)
    requires Harmless(rules)
    ensures AllBelow(rules, bound)
  {
    hide HarmlessRule, RuleBelow;
    forall i | 0 <= i < |rules| ensures RuleBelow(rules[i], bound) { HarmlessRuleBelow(rules[i], bound); }
  }

  lemma HarmlessRuleBelow(rule: NftRule, bound: nat)
    requires HarmlessRule(rule)
    ensures RuleBelow(rule, bound)
  {
  }

  lemma BaseBelow(h: Hook, ipv6: bool)
    ensures AllBelow(BaseChain(h, ipv6), 3)
  {
    hide PadName, WildcardMask, Concat;
    ConcatBelow(BaseParts(h, ipv6), 3);
  }

  lemma PolicyBelow(pol: Policy, level: Level)
    ensures AllBelow(RejectRules(pol), 0) && AllBelow(TrackRules(pol), 0) && AllBelow(SkipRules(pol), 0)
    ensures AllBelow(UserLimitRules(level), 0) && AllBelow([Guarded([], Accept)], 0) && AllBelow(NotLocalChain(), 1)
  {
    hide GuardAll, Guarded, RuleBelow;
    GuardedBelow([], Final(PolicyVerdict(pol)), 0);
    GuardedBelow([], RejectWith, 0);
    GuardedBelow([], Accept, 0);
    GuardAllBelow(TrackMatches(), Accept, 0);
    LimitLogBelow();
    NotLocalBelow();
  }

  lemma LimitLogBelow()
    ensures RuleBelow([RateLimit(3, 5), LogPrefix("[BFW LIMIT BLOCK] ")], 0)
    ensures RuleBelow([LIMIT3, Counter, Verdict(Jump(LogDeny))], 1)
  {
  }

  lemma NotLocalBelow()
    ensures AllBelow(NotLocalChain(), 1)
  {
    hide GuardAll, Guarded, RuleBelow;
    GuardAllBelow([FibMatch(2), FibMatch(5), FibMatch(3)], Return, 1);
    GuardedBelow([], Drop, 1);
    LimitLogBelow();
  }

  // All jump targets exist and every jump goes to a smaller rank, so the
  // jump graph is acyclic and at most three deep.
  lemma {:induction false} JumpGraph(chains: map<Chain, seq<NftRule>>, sets: Sets, st: State, pol: Policies,
      ipv6: bool, now: int, prog: Program)
    requires Loaded(chains, sets, st, pol, ipv6, now, prog)
    ensures Ranked(chains, Rank)
  {
    var env := Env(chains, sets, _ => false, _ => false);
    LoadedServices(env, st, pol, ipv6, now, prog);
    var start, id, four := UserSource(env, st, pol, ipv6, now, prog);
    hide ServiceChains, BeforeTargets, CompileRules, AllBelow, AddressSetsOnly, BansLoaded, NamedLoaded, Harmless,
         BaseChain, BeforeChain, AfterChain, JumpsBelow;
    forall c: Chain ensures JumpsBelow(chains[c], chains, Rank, Rank(c)) {
      ChainBelow(chains, sets, st, pol, ipv6, now, prog, start, id, four, c);
      BelowJumps(chains, chains[c], Rank(c));
    }
  }

  lemma BelowJumps(chains: map<Chain, seq<NftRule>>, rules: seq<NftRule>, bound: nat)
    requires (forall c: Chain :: c in chains) && AllBelow(rules, bound)
    ensures JumpsBelow(rules, chains, Rank, bound)
  {
    forall i | 0 <= i < |rules| ensures RuleBelow(rules[i], bound) {}
  }

  lemma ChainBelow(chains: map<Chain, seq<NftRule>>, sets: Sets, st: State, pol: Policies, ipv6: bool, now: int,
                   prog: Program, start: Sets, id: nat, four: Program, c: Chain)
    requires Loaded(chains, sets, st, pol, ipv6, now, prog)
    requires CompileRules(UserStart(st.logging, start, id), st.rules4, false, now) == Ok(four)
    requires CompileRules(four, st.rules6, true, now) == Ok(prog)
    requires forall h :: Harmless(chains[UserLogging(h)])
    ensures AllBelow(chains[c], Rank(c))
  {
    hide RuleBelow, HarmlessRule, CompileRules, BansLoaded, AddressSetsOnly;
    hide BaseChain, BeforeChain, AfterChain, RejectRules, TrackRules, SkipRules, NotLocalChain, UserLimitRules, Guarded;
    hide LogDenyRules, LogAllowRules, BeforeLoggingRules, AfterLoggingRules;
    match c
    case Base(h) => BaseBelow(h, ipv6);
    case Before(h) => BeforeBelow(h);
    case User(h) =>
      UserBelow(UserStart(st.logging, start, id), st.rules4, false, now, h);
      UserBelow(four, st.rules6, true, now, h);
    case After(h) => AfterBelow(h);
    case UserLogging(h) => HarmlessBelow(chains[c], 0);
    case BeforeLogging(h) => LoggingHarmless(st.logging, pol.Get(h)); HarmlessBelow(chains[c], 0);
    case AfterLogging(h) => LoggingHarmless(st.logging, pol.Get(h)); HarmlessBelow(chains[c], 0);
    case LogDeny => LoggingHarmless(st.logging, DenyPolicy); HarmlessBelow(chains[c], 0);
    case LogAllow => LoggingHarmless(st.logging, DenyPolicy); HarmlessBelow(chains[c], 0);
    case RejectChain(h) => PolicyBelow(pol.Get(h), st.logging);
    case Track(h) => PolicyBelow(pol.Get(h), st.logging);
    case SkipToPolicy(h) => PolicyBelow(pol.Get(h), st.logging);
    case NotLocal => PolicyBelow(DenyPolicy, st.logging);
    case UserLimit => PolicyBelow(DenyPolicy, st.logging);
    case UserLimitAccept => PolicyBelow(DenyPolicy, st.logging);
    case UserEgress =>
  }

  // In every loaded state evaluation ends with a decision for every packet,
  // and a deeper jump stack makes no difference.
  lemma {:induction false} EveryPacketDecided(env: Env, st: State, pol: Policies, ipv6: bool, now: int, prog: Program,
                           h: Hook, policy: Decision, depth: nat, p: Packet)
    requires Loaded(env.chains, env.sets, st, pol, ipv6, now, prog) && depth >= 3
    ensures Ranked(env.chains, Rank)
    ensures RunBase(h, policy, depth, p, env).Some?
    ensures RunBase(h, policy, depth, p, env) == RunBase(h, policy, 3, p, env)
  {
    hide RunChain, JumpsBelow, Loaded;
    JumpGraph(env.chains, env.sets, st, pol, ipv6, now, prog);
    ChainsOf(env, st, pol, ipv6, now, prog, h);
    BaseRuns(env, h, policy, depth, p);
  }

  lemma BaseRuns(env: Env, h: Hook, policy: Decision, depth: nat, p: Packet)
    requires Ranked(env.chains, Rank) && Base(h) in env.chains && depth >= 3
    ensures RunBase(h, policy, depth, p, env).Some?
    ensures RunBase(h, policy, depth, p, env) == RunBase(h, policy, 3, p, env)
  {
    hide RunChain, JumpsBelow;
    RankedRuns(env.chains[Base(h)], Rank, 3, depth, p, env, 0);
  }

  // ---- ban dominance ----

  // The packet's source is under a ban still in force.
  ghost predicate UnderBan(st: State, now: int, p: Packet)
    requires p.Valid() && ValidSources(LiveBans(st.bans, now))
  {
    Listed(LiveBans(st.bans, now), p.Saddr())
  }

  // In every state, a packet from a banned source is dropped on forward,
  // and on input unless it arrives on lo.
  lemma {:induction false} BanDominates(env: Env, st: State, pol: Policies, ipv6: bool, now: int, prog: Program,
                     h: Hook, policy: Decision, depth: nat, p: Packet)
    requires Loaded(env.chains, env.sets, st, pol, ipv6, now, prog) && p.Valid() && depth >= 3
    requires ValidSources(LiveBans(st.bans, now)) && BelowTop(LiveBans(st.bans, now), if p.v6 then 16 else 4)
    requires UnderBan(st, now, p) && (h == ForwardHook || (h == Input && p.iif != LO))
    ensures RunBase(h, policy, depth, p, env) == Some(Dropped)
  {
    hide Loaded, RunBase, BeforeDecision, Banned, BeforeTargets, ServiceChains, ValidSources, BelowTop, UnderBan;
    LoadedServices(env, st, pol, ipv6, now, prog);
    BanSetHas(env, st, pol, ipv6, now, prog, p);
    BannedDecision(h, p, env);
    HeadDecides(env, st, pol, ipv6, now, prog, h, policy, depth, p);
  }

  lemma BanSetHas(env: Env, st: State, pol: Policies, ipv6: bool, now: int, prog: Program, p: Packet)
    requires Loaded(env.chains, env.sets, st, pol, ipv6, now, prog) && p.Valid()
    requires ValidSources(LiveBans(st.bans, now)) && BelowTop(LiveBans(st.bans, now), if p.v6 then 16 else 4)
    requires UnderBan(st, now, p)
    ensures Banned(p, env)
  {
    hide Loaded, CompileRules, Listed, BelowTop, Encodes, SetBody.Has, ValidSources, Packet.Saddr, UserStart, LiveBans;
    ChainsOf(env, st, pol, ipv6, now, prog, Input);
    var sets, id, four := UserSource(env, st, pol, ipv6, now, prog);
    AddressSetsKept(st, now, sets, id, four, prog);
    assert ThreatBans(p.v6) in sets;
    LiveSetHas(sets[ThreatBans(p.v6)], LiveBans(st.bans, now), p);
  }

  // Compiling the user rules leaves the ban and named sets alone.
  lemma AddressSetsKept(st: State, now: int, sets: Sets, id: nat, four: Program, prog: Program)
    requires AddressSetsOnly(sets)
    requires CompileRules(UserStart(st.logging, sets, id), st.rules4, false, now) == Ok(four)
    requires CompileRules(four, st.rules6, true, now) == Ok(prog)
    ensures forall n :: n in sets ==> n in prog.sets && prog.sets[n] == sets[n]
  {
    hide CompileRules, UserLoggingHead;
    CompiledSets(UserStart(st.logging, sets, id), st.rules4, false, now);
    CompiledSets(four, st.rules6, true, now);
  }

  // A rule naming a set tests membership of its listed prefixes.
  lemma {:induction false} NamedSetMembership(env: Env, st: State, pol: Policies, ipv6: bool, now: int,
      prog: Program, i: nat, v6: bool, a: seq<byte>)
    requires Loaded(env.chains, env.sets, st, pol, ipv6, now, prog)
    requires i < |st.sets| && Unshadowed(st.sets, i) && ValidSources(st.sets[i].sources)
    requires |a| == AddrLen(v6) && BelowTop(st.sets[i].sources, AddrLen(v6))
    ensures InNamedSet(env, st.sets[i].name, v6, a) <==> Listed(st.sets[i].sources, a)
  {
    hide Loaded, CompileRules, Listed, BelowTop, Encodes, BansLoaded, ValidSources, UserStart, Unshadowed, InSet;
    ChainsOf(env, st, pol, ipv6, now, prog, Input);
    var sets, id, four := UserSource(env, st, pol, ipv6, now, prog);
    AddressSetsKept(st, now, sets, id, four, prog);
    assert HalvesLoaded(sets, st.sets[i]);
    EncodedHas(sets[UserSet(SetKey(st.sets[i].name, v6))].elems, st.sets[i].sources, AddrLen(v6), a);
  }

  lemma LiveSetHas(body: SetBody, live: Sources, p: Packet)
    requires p.Valid() && body.interval && ValidSources(live)
    requires Encodes(body.elems, live, if p.v6 then 16 else 4) && BelowTop(live, if p.v6 then 16 else 4)
    ensures body.Has(p.Saddr()) <==> Listed(live, p.Saddr())
  {
    hide InSet, Listed, BelowTop, Encodes, ValidSources;
    EncodedHas(body.elems, live, if p.v6 then 16 else 4, p.Saddr());
  }

  lemma EncodedHas(elems: seq<Element>, sources: Sources, n: nat, a: seq<byte>)
    requires ValidSources(sources) && Encodes(elems, sources, n) && BelowTop(sources, n) && |a| == n
    ensures InSet(elems, a) <==> Listed(sources, a)
  {
    hide InSet, Listed, BelowTop, ElementsOf, MergedFrom;
    var ivs, s :| elems == ElementsOf(ivs) && MergedFrom(ivs, s, sources, n);
    EncodedExactly(ivs, s, sources, n, a);
  }

  lemma BannedDecision(h: Hook, p: Packet, env: Env)
    requires p.Valid() && Banned(p, env) && (h == ForwardHook || (h == Input && p.iif != LO))
    ensures BeforeDecision(h, p, env) == Some(Dropped)
  {
    hide Banned, AnyIcmp, AnyIcmp6, IsDhcp, MulticastConds, FirstOf;
    var ds := BeforeClauses(h, p, env);
    if h == Input {
      assert ds == [ds[0]] + ([ds[1]] + ([ds[2]] + ds[3..]));
      FirstOfCons(ds[0], [ds[1]] + ([ds[2]] + ds[3..]));
      FirstOfCons(ds[1], [ds[2]] + ds[3..]);
      FirstOfCons(ds[2], ds[3..]);
    } else {
      assert ds == [ds[0]] + ([ds[1]] + ds[2..]);
      FirstOfCons(ds[0], [ds[1]] + ds[2..]);
      FirstOfCons(ds[1], ds[2..]);
    }
  }

  // What the guard and the before chain decide is final.
  lemma {:induction false} HeadDecides(env: Env, st: State, pol: Policies, ipv6: bool, now: int, prog: Program,
                    h: Hook, policy: Decision, depth: nat, p: Packet)
    requires Loaded(env.chains, env.sets, st, pol, ipv6, now, prog) && p.Valid() && depth >= 3 && BeforeTargets(env)
    requires Or(GuardDecision(h, ipv6, p), BeforeDecision(h, p, env)).Some?
    ensures Base(h) in env.chains
    ensures RunBase(h, policy, depth, p, env) == Or(GuardDecision(h, ipv6, p), BeforeDecision(h, p, env))
  {
    hide Loaded, Settles, BeforeTargets, RunChain, Concat, Guards, GuardDecision, BeforeChain, BeforeDecision, JumpTo;
    hide AfterChain, TrackRules, RejectRules, SkipRules, Harmless;
    ChainsOf(env, st, pol, ipv6, now, prog, h);
    HeadSettles(env, h, ipv6, depth, p);
    var g, b := GuardDecision(h, ipv6, p), BeforeDecision(h, p, env);
    var rest := Concat(BaseParts(h, ipv6)[3..]);
    ConcatThree(BaseParts(h, ipv6));
    if g.Some? {
      SettlesAppend(Guards(h, ipv6), g, JumpTo(BeforeLogging(h)) + (JumpTo(Before(h)) + rest), None, depth, p, env);
    } else {
      SettlesAppend(JumpTo(Before(h)), b, rest, None, depth, p, env);
      SettlesAppend(JumpTo(BeforeLogging(h)), None, JumpTo(Before(h)) + rest, b, depth, p, env);
      SettlesAppend(Guards(h, ipv6), None, JumpTo(BeforeLogging(h)) + (JumpTo(Before(h)) + rest), b, depth, p, env);
    }
    SettlesAt(env.chains[Base(h)], Or(g, b), depth, p, env);
    BaseOutcome(h, policy, Or(g, b), depth, p, env);
  }

  lemma ConcatThree(parts: seq<seq<NftRule>>)
    requires |parts| >= 3
    ensures Concat(parts) == parts[0] + (parts[1] + (parts[2] + Concat(parts[3..])))
  {
    assert parts[1..][1..] == parts[2..] && parts[2..][1..] == parts[3..];
    assert Concat(parts[1..]) == parts[1] + Concat(parts[2..]);
    assert Concat(parts[2..]) == parts[2] + Concat(parts[3..]);
  }

  // An empty base chain gives its policy.
  lemma PanicDropsAll(h: Hook, depth: nat, p: Packet, env: Env)
    requires Base(h) in env.chains && env.chains[Base(h)] == []
    ensures RunBase(h, Dropped, depth, p, env) == Some(Dropped)
  {
  }
}
