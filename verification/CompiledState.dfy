/** The compiler as it runs: a growing object graph of chains, rules and
    sets, filled in the order of compile(). */
module CompiledState {
  import opened Bytes
  import opened AddressSets
  import opened Outcomes
  import opened Rules
  import opened Netfilter
  import opened Matching
  import opened RuleCompiler
  import opened BuiltinChains
  import opened Compiler
  import opened Verdicts

  type Chains = map<Chain, seq<NftRule>>

  function RulesIn(m: Chains, c: Chain): seq<NftRule>
  {
    if c in m then m[c] else []
  }

  // Rules appended to one chain, which is created on first use.
  function Plus(m: Chains, c: Chain, x: seq<NftRule>): Chains
  {
    m[c := RulesIn(m, c) + x]
  }

  lemma PlusPlus(m: Chains, c: Chain, x: seq<NftRule>, y: seq<NftRule>)
    ensures Plus(Plus(m, c, x), c, y) == Plus(m, c, x + y)
  {
    assert RulesIn(m, c) + x + y == RulesIn(m, c) + (x + y);
  }

  lemma PlusNothing(m: Chains, c: Chain)
    requires c in m
    ensures Plus(m, c, []) == m
  {
    assert m[c] + [] == m[c];
  }

  // Rules appended to a user chain and its logging chain.
  function PlusRule(m: Chains, h: Hook, log: seq<NftRule>, user: seq<NftRule>): Chains
  {
    Plus(Plus(m, UserLogging(h), log), User(h), user)
  }

  lemma PlusRuleTwice(m: Chains, h: Hook, log: seq<NftRule>, user: seq<NftRule>, log': seq<NftRule>,
      user': seq<NftRule>)
    ensures PlusRule(PlusRule(m, h, log, user), h, log', user') == PlusRule(m, h, log + log', user + user')
  {
    assert RulesIn(m, User(h)) + user + user' == RulesIn(m, User(h)) + (user + user');
    assert RulesIn(m, UserLogging(h)) + log + log' == RulesIn(m, UserLogging(h)) + (log + log');
  }

  // What a section of the compiler appends, chain by chain.
  ghost predicate Appends(before: Chains, after: Chains, section: Chain -> seq<NftRule>)
  {
    && (forall c :: c in after <==> c in before)
    && forall c :: c in before ==> after[c] == before[c] + section(c)
  }

  ghost predicate Complete(m: Chains) { forall c: Chain :: c in m }

  // Meters have no elements of their own.
  ghost predicate MetersOnly(sets: Sets)
  {
    forall n :: n in sets && n.Meter? ==> sets[n] == METER_BODY
  }

  // ---- sections ----

  function BeforeSection(c: Chain): seq<NftRule>
  {
    match c
    case Before(Input) => Concat(BeforeParts(Input))
    case Before(Output) => Concat(BeforeParts(Output)[..4])
    case Before(ForwardHook) => Concat(BeforeParts(ForwardHook))
    case NotLocal => NotLocalChain()
    case _ => []
  }

  function AfterSection(c: Chain): seq<NftRule>
  {
    if c.After? then AfterChain(c.hook) else []
  }

  function EgressSection(c: Chain): seq<NftRule>
  {
    if c == Before(Output) then [Guarded([], Jump(UserEgress))] else []
  }

  function PolicySection(pol: Policies, c: Chain): seq<NftRule>
  {
    match c
    case RejectChain(h) => RejectRules(pol.Get(h))
    case Track(h) => TrackRules(pol.Get(h))
    case SkipToPolicy(h) => SkipRules(pol.Get(h))
    case _ => []
  }

  function LimitSection(level: Level, c: Chain): seq<NftRule>
  {
    if c == UserLimitAccept then [Guarded([], Accept)] else if c == UserLimit then UserLimitRules(level) else []
  }

  function LoggingSection(level: Level, pol: Policies, c: Chain): seq<NftRule>
  {
    match c
    case UserLogging(_) => UserLoggingHead(level)
    case AfterLogging(h) => AfterLoggingRules(level, pol.Get(h))
    case BeforeLogging(_) => BeforeLoggingRules(level)
    case LogDeny => LogDenyRules(level)
    case LogAllow => LogAllowRules(level)
    case _ => []
  }

  const HOOKS: seq<Hook> := [Input, Output, ForwardHook]

  // ---- the object graph ----

  class Compiled {
    var chains: Chains
    var sets: Sets
    var setID: nat
    var policies: map<Hook, Decision>

    constructor ()
      ensures chains == map[] && sets == map[] && setID == 0 && policies == map[]
    {
      chains, sets, setID, policies := map[], map[], 0, map[];
    }

    method CreateChain(c: Chain)
      modifies this`chains
      ensures chains == Plus(old(chains), c, [])
    {
      if c in chains {
        PlusNothing(chains, c);
      } else {
        assert RulesIn(chains, c) + [] == [];
        chains := chains[c := []];
      }
    }

    method AddRule(c: Chain, exprs: NftRule)
      modifies this`chains
      ensures chains == Plus(old(chains), c, [exprs])
    {
      CreateChain(c);
      PlusPlus(old(chains), c, [], [exprs]);
      assert [] + [exprs] == [exprs];
      chains := chains[c := chains[c] + [exprs]];
    }

    // One rule per match, all with the same verdict.
    method AddRules(c: Chain, ms: seq<NftRule>, v: Verdict)
      requires c in chains
      modifies this`chains
      ensures chains == Plus(old(chains), c, GuardAll(ms, v))
    {
      hide Plus, GuardAll;
      PlusNothing(chains, c);
      GuardNone(v);
      for i := 0 to |ms|
        invariant chains == Plus(old(chains), c, GuardAll(ms[..i], v))
      {
        AddRule(c, ms[i] + [Counter, Verdict(v)]);
        PlusPlus(old(chains), c, GuardAll(ms[..i], v), [Guarded(ms[i], v)]);
        GuardSnoc(ms, i, v);
      }
      assert ms[..|ms|] == ms;
    }

    // ---- one user rule ----

    method PortExprs(ports: seq<PortRange>, source: bool, q: Proto) returns (ex: NftRule)
      modifies this`sets, this`setID
      ensures var m := PortMatch(ports, source, q, old(setID));
              ex == m.exprs && sets == old(sets) + m.sets && setID == m.id
    {
      hide PortSet, PortBytes, ElementsOf, PortIntervals, PortKeysOf, Applicable;
      var first, matched := FirstPort(ports, q);
      if matched == 0 { return []; }
      var load := Payload(1, TransportHeader, PortOffset(source), 2);
      if matched == 1 {
        var f := first.value;
        ex := if f.lo == f.hi then [load, Cmp(1, true, PortBytes(f.lo))]
              else [load, InRange(1, PortBytes(f.lo), PortBytes(f.hi))];
        return;
      }
      var rs, interval := FilterPorts(ports, q);
      var elems := PortElements(rs, interval);
      setID := setID + 1;
      var name := Anonymous(setID);
      PortSetIs(rs, interval);
      sets := sets[name := SetBody(interval, elems)];
      return [load, Lookup(1, name)];
    }

    static method FirstPort(ports: seq<PortRange>, q: Proto) returns (first: Option<PortRange>, matched: nat)
      ensures matched == |Applicable(ports, q)|
      ensures first == if matched > 0 then Some(Applicable(ports, q)[0]) else None
    {
      first, matched := None, 0;
      for i := 0 to |ports|
        invariant matched == |Applicable(ports[..i], q)|
        invariant first == if matched > 0 then Some(Applicable(ports[..i], q)[0]) else None
      {
        assert ports[..i + 1][..i] == ports[..i];
        if ports[i].proto == NoProto || ports[i].proto == AnyProto || ports[i].proto == q {
          matched := matched + 1;
          if matched == 1 { first := Some(ports[i]); }
        }
      }
      assert ports[..|ports|] == ports;
    }

    static method FilterPorts(ports: seq<PortRange>, q: Proto) returns (rs: seq<PortRange>, interval: bool)
      ensures rs == Applicable(ports, q) && interval == AnyMulti(rs)
    {
      rs, interval := [], false;
      for i := 0 to |ports|
        invariant rs == Applicable(ports[..i], q)
        invariant interval <==> exists j :: 0 <= j < |rs| && rs[j].lo != rs[j].hi
      {
        assert ports[..i + 1][..i] == ports[..i];
        if !(ports[i].proto != NoProto && ports[i].proto != AnyProto && ports[i].proto != q) {
          ghost var prior := rs;
          rs := rs + [ports[i]];
          assert forall j :: 0 <= j < |prior| ==> rs[j] == prior[j];
          if ports[i].lo != ports[i].hi {
            interval := true;
            assert rs[|rs| - 1].lo != rs[|rs| - 1].hi;
          }
        }
      }
      assert ports[..|ports|] == ports;
    }

    static method PortElements(rs: seq<PortRange>, interval: bool) returns (elems: seq<Element>)
      ensures elems == if interval then ElementsOf(PortIntervals(rs)) else PortKeysOf(rs)
    {
      hide PortBytes, PortInterval;
      elems := [];
      for i := 0 to |rs|
        invariant elems == if interval then ElementsOf(PortIntervals(rs[..i])) else PortKeysOf(rs[..i])
      {
        if interval {
          var iv := PortInterval(rs[i]);
          assert PortIntervals(rs[..i + 1]) == PortIntervals(rs[..i]) + [iv];
          ElementsSnoc(PortIntervals(rs[..i]), iv);
          elems := elems + [Element(iv.start, false), Element(iv.end, true)];
        } else {
          elems := elems + [Element(PortBytes(rs[i].lo), false)];
        }
      }
      assert rs[..|rs|] == rs;
    }

    // ruleMatch: everything before the counter and verdict.
    method RuleMatchExprs(r: Rule, q: Proto, v6: bool) returns (res: Result<NftRule>)
      modifies this`sets, this`setID
      ensures res.Ok? <==> RuleMatch(r, q, v6, old(setID)).Ok?
      ensures res.Ok? ==> var m := RuleMatch(r, q, v6, old(setID)).value;
                          res.value == m.exprs && sets == old(sets) + m.sets && setID == m.id
    {
      hide BothPorts, NfprotoMatch, IfaceExprs, ProtoExprs, IcmpExprs, EndpointMatch, MatchRejected;
      var prefix := MatchPrefix(r, q, v6);
      if prefix.Err? { return Err; }
      var ports := BothPortExprs(r, q);
      EightAssociate(NfprotoMatch(v6), IfaceExprs(Iifname, r.ifaceIn), IfaceExprs(Oifname, r.ifaceOut), ProtoExprs(q),
                     IcmpExprs(r.icmpType), EndpointMatch(r.src, true, v6), EndpointMatch(r.dst, false, v6), ports);
      return Ok(prefix.value + ports);
    }

    // The checks of ruleMatch and the matches other than ports.
    static method MatchPrefix(r: Rule, q: Proto, v6: bool) returns (res: Result<NftRule>)
      ensures res.Err? <==> MatchRejected(r, q, v6)
      ensures res.Ok? ==>
              res.value == NfprotoMatch(v6) + IfaceExprs(Iifname, r.ifaceIn) + IfaceExprs(Oifname, r.ifaceOut)
                          + ProtoExprs(q) + IcmpExprs(r.icmpType) + EndpointMatch(r.src, true, v6)
                          + EndpointMatch(r.dst, false, v6)
    {
      hide NfprotoMatch, IfaceMatch, L4Match, IcmpTypeMatch, EndpointMatch;
      if (q == Icmp && v6) || (q == Icmpv6 && !v6) { return Err; }
      if (q == Icmp || q == Icmpv6) && (r.src.ports != [] || r.dst.ports != []) { return Err; }
      var ex := NfprotoMatch(v6);
      if r.ifaceIn != [] { ex := ex + IfaceMatch(Iifname, r.ifaceIn); }
      if r.ifaceOut != [] { ex := ex + IfaceMatch(Oifname, r.ifaceOut); }
      if q != AnyProto {
        if ProtoNum(q).None? { return Err; }
        ex := ex + L4Match(ProtoNum(q).value);
      }
      if r.icmpType.Some? {
        if (q != Icmp && q != Icmpv6) || r.icmpType.value > 255 { return Err; }
        ex := ex + IcmpTypeMatch(r.icmpType.value);
      }
      ex := ex + EndpointMatch(r.src, true, v6);
      ex := ex + EndpointMatch(r.dst, false, v6);
      return Ok(ex);
    }

    // Ports are only meaningful for tcp and udp.
    method BothPortExprs(r: Rule, q: Proto) returns (ex: NftRule)
      modifies this`sets, this`setID
      ensures var m := BothPorts(r, q, old(setID)); ex == m.exprs && sets == old(sets) + m.sets && setID == m.id
    {
      hide PortMatch;
      if q == Tcp || q == Udp {
        var s := PortExprs(r.src.ports, true, q);
        var d := PortExprs(r.dst.ports, false, q);
        ghost var ms := PortMatch(r.src.ports, true, q, old(setID));
        assert old(sets) + ms.sets + PortMatch(r.dst.ports, false, q, ms.id).sets
               == old(sets) + (ms.sets + PortMatch(r.dst.ports, false, q, ms.id).sets);
        return s + d;
      }
      assert old(sets) + map[] == old(sets);
      return [];
    }

    // The meter of a limit rule is created once per rule and family.
    method CompileLimit(r: Rule, q: Proto, v6: bool, exprs: NftRule, userChain: Chain)
      requires MetersOnly(sets)
      modifies this`sets, this`chains
      ensures chains == Plus(old(chains), userChain, [Guarded(LimitMatch(r, q, v6, exprs), Jump(UserLimit)),
                                                      Guarded(exprs, Jump(UserLimitAccept))])
      ensures sets == old(sets) + map[Meter(MeterKey(r, v6)) := METER_BODY]
    {
      hide MeterKey, CtMatch, MeterLoads;
      var name := Meter(MeterKey(r, v6));
      if name !in sets {
        sets := sets[name := SetBody(false, [])];
      }
      assert sets == old(sets) + map[name := METER_BODY];
      var ex := exprs + CtMatch(8);
      ex := ex + MeterLoads(q, v6);
      ex := ex + [Dynset(if v6 then 1 else 8, name), Counter, Verdict(Jump(UserLimit))];
      LimitAssociates(exprs, CtMatch(8), MeterLoads(q, v6), Dynset(if v6 then 1 else 8, name));
      AddRule(userChain, ex);
      AddRule(userChain, exprs + [Counter, Verdict(Jump(UserLimitAccept))]);
      var first, second := [ex], [Guarded(exprs, Jump(UserLimitAccept))];
      PlusPlus(old(chains), userChain, first, second);
      assert first + second ==
             [Guarded(LimitMatch(r, q, v6, exprs), Jump(UserLimit)), Guarded(exprs, Jump(UserLimitAccept))];
    }

    method CompileVariant(r: Rule, q: Proto, v6: bool) returns (ok: bool)
      requires MetersOnly(sets) && User(HookOf(r.direction)) in chains && UserLogging(HookOf(r.direction)) in chains
      modifies this`sets, this`setID, this`chains
      ensures ok <==> VariantBlock(r, q, v6, old(setID)).Ok?
      ensures ok ==> var b := VariantBlock(r, q, v6, old(setID)).value;
                     && chains == PlusRule(old(chains), HookOf(r.direction), b.log, b.user)
                     && sets == old(sets) + b.sets && setID == b.id
    {
      hide RuleMatch, LogRules, LogJump, ActionRules, MeterSets, Plus, MetersOnly;
      var res := RuleMatchExprs(r, q, v6);
      if res.Err? { return false; }
      ghost var m := RuleMatch(r, q, v6, old(setID)).value;
      MatchSets(r, q, v6, old(setID));
      MetersStay(old(sets), m.sets);
      EmitLog(r, res.value);
      ok := EmitAction(r, q, v6, res.value);
      if ok {
        var h := HookOf(r.direction);
        var a := ActionRules(r, q, v6, res.value).value;
        PlusPlus(Plus(old(chains), UserLogging(h), LogRules(r, m.exprs)), User(h), LogJump(r, m.exprs), a);
        assert old(sets) + m.sets + MeterSets(r, v6) == old(sets) + (m.sets + MeterSets(r, v6));
      }
    }

    method EmitAction(r: Rule, q: Proto, v6: bool, exprs: NftRule) returns (ok: bool)
      requires MetersOnly(sets)
      modifies this`sets, this`chains
      ensures ok <==> ActionRules(r, q, v6, exprs).Ok?
      ensures ok ==> && chains == Plus(old(chains), User(HookOf(r.direction)), ActionRules(r, q, v6, exprs).value)
                     && sets == old(sets) + MeterSets(r, v6)
    {
      hide Plus, LimitMatch, MeterKey;
      var userChain := User(HookOf(r.direction));
      assert old(sets) + map[] == old(sets);
      match r.action
      case Allow =>
        AddRule(userChain, exprs + [Counter, Verdict(Accept)]);
        ok := true;
      case Deny =>
        AddRule(userChain, exprs + [Counter, Verdict(Drop)]);
        ok := true;
      case Reject =>
        AddRule(userChain, exprs + [Counter, Verdict(RejectWith)]);
        ok := true;
      case Limit =>
        CompileLimit(r, q, v6, exprs, userChain);
        ok := true;
      case OtherAction(_) =>
        ok := false;
    }

    // A logged rule first visits its logging chain.
    method EmitLog(r: Rule, exprs: NftRule)
      requires User(HookOf(r.direction)) in chains && UserLogging(HookOf(r.direction)) in chains
      modifies this`chains
      ensures chains == PlusRule(old(chains), HookOf(r.direction), LogRules(r, exprs), LogJump(r, exprs))
    {
      hide CtMatch;
      var userChain, logChain := User(HookOf(r.direction)), UserLogging(HookOf(r.direction));
      PlusNothing(chains, logChain);
      PlusNothing(chains, userChain);
      if r.log != LogNone {
        var lm := exprs;
        if r.log == LogNew { lm := lm + CtMatch(8); }
        var line := lm + [LIMIT3, LogPrefix(LogPrefixOf(r.action))];
        AddRule(logChain, line);
        AddRule(logChain, lm + [Counter, Verdict(Return)]);
        PlusPlus(old(chains), logChain, [line], [Guarded(lm, Return)]);
        assert [line] + [Guarded(lm, Return)] == LogRules(r, exprs);
        AddRule(userChain, exprs + [Counter, Verdict(Jump(logChain))]);
      }
    }

    method CompileRule(r: Rule, v6: bool, now: int) returns (ok: bool)
      requires MetersOnly(sets) && User(HookOf(r.direction)) in chains && UserLogging(HookOf(r.direction)) in chains
      modifies this`sets, this`setID, this`chains
      ensures ok <==> RuleBlock(r, v6, now, old(setID)).Ok?
      ensures ok ==> var b := RuleBlock(r, v6, now, old(setID)).value;
                     && chains == PlusRule(old(chains), HookOf(r.direction), b.log, b.user)
                     && sets == old(sets) + b.sets && setID == b.id
      ensures ok ==> MetersOnly(sets)
    {
      hide VariantBlock, Variants, MetersOnly, PlusRule;
      ghost var h := HookOf(r.direction);
      PlusRuleNothing(chains, h);
      assert old(sets) + map[] == old(sets);
      if r.disabled || r.Expired(now) { return true; }
      var variants := ProtoVariants(r);
      for i := 0 to |variants|
        invariant VariantsBlock(r, variants[..i], v6, old(setID)).Ok?
        invariant var b := VariantsBlock(r, variants[..i], v6, old(setID)).value;
                  chains == PlusRule(old(chains), h, b.log, b.user) && sets == old(sets) + b.sets && setID == b.id
        invariant MetersOnly(sets) && User(h) in chains && UserLogging(h) in chains
      {
        ghost var b := VariantsBlock(r, variants[..i], v6, old(setID)).value;
        assert variants[..i + 1][..i] == variants[..i];
        ok := CompileVariant(r, variants[i], v6);
        if !ok {
          VariantFails(r, variants, i, v6, old(setID));
          return;
        }
        ghost var last := VariantBlock(r, variants[i], v6, b.id).value;
        PlusRuleTwice(old(chains), h, b.log, b.user, last.log, last.user);
        PlusRuleKeeps(old(chains), h, b.log + last.log, b.user + last.user);
        assert old(sets) + b.sets + last.sets == old(sets) + (b.sets + last.sets);
        VariantSets(r, variants[i], v6, b.id);
        MetersStay(old(sets) + b.sets, last.sets);
      }
      assert variants[..|variants|] == variants;
      return true;
    }

    // ---- user rules ----

    // One family list: the loop of compile() over its rules.
    method CompileList(rules: seq<Rule>, v6: bool, now: int, ghost base: Chains, ghost s: Program) returns (ok: bool)
      requires Complete(base) && MetersOnly(sets) && Holds(chains, base, s) && sets == s.sets && setID == s.id
      modifies this`sets, this`setID, this`chains
      ensures ok <==> CompileRules(s, rules, v6, now).Ok?
      ensures ok ==> var s' := CompileRules(s, rules, v6, now).value;
                     Holds(chains, base, s') && sets == s'.sets && setID == s'.id && MetersOnly(sets)
    {
      hide RuleBlock, MetersOnly, Holds, PlusRule;
      for i := 0 to |rules|
        invariant CompileRules(s, rules[..i], v6, now).Ok?
        invariant var s' := CompileRules(s, rules[..i], v6, now).value;
                  Holds(chains, base, s') && sets == s'.sets && setID == s'.id && MetersOnly(sets)
      {
        ghost var s' := CompileRules(s, rules[..i], v6, now).value;
        assert rules[..i + 1][..i] == rules[..i];
        HoldsAll(chains, base, s');
        ghost var m := chains;
        ok := CompileRule(rules[i], v6, now);
        if !ok {
          RuleFails(s, rules, i, v6, now);
          return;
        }
        RuleAdded(base, s', HookOf(rules[i].direction), RuleBlock(rules[i], v6, now, s'.id).value, m, chains);
      }
      assert rules[..|rules|] == rules;
      return true;
    }

    // ---- built-in chains ----

    method CompileBase(h: Hook, ipv6: bool, pol: Policy)
      requires Base(h) !in chains
      modifies this`chains, this`policies
      ensures chains == old(chains)[Base(h) := BaseChain(h, ipv6)]
      ensures policies == old(policies)[h := BasePolicy(pol)]
    {
      hide Concat, JumpTo;
      policies := policies[h := if pol != AllowPolicy then Dropped else Accepted];
      chains := chains[Base(h) := []];
      if !ipv6 {
        EmitGuards(h);
      }
      EmitJumps(h, Guards(h, ipv6));
      assert [Guards(h, ipv6)] + JumpParts(h) == BaseParts(h, ipv6);
      ConcatCons(Guards(h, ipv6), JumpParts(h));
    }

    // IPv6 off: only loopback traffic passes.
    method EmitGuards(h: Hook)
      requires Base(h) in chains && chains[Base(h)] == []
      modifies this`chains
      ensures chains == old(chains)[Base(h) := Guards(h, false)]
    {
      hide NfprotoMatch, IfaceMatch;
      if h == Input {
        AddRule(Base(h), NfprotoMatch(true) + IfaceMatch(Iifname, LO) + [Counter, Verdict(Accept)]);
      } else if h == Output {
        AddRule(Base(h), NfprotoMatch(true) + IfaceMatch(Oifname, LO) + [Counter, Verdict(Accept)]);
      }
      AddRule(Base(h), NfprotoMatch(true) + [Counter, Verdict(Drop)]);
      assert chains[Base(h)] == Guards(h, false);
    }

    method EmitJumps(h: Hook, ghost guards: seq<NftRule>)
      requires Base(h) in chains && chains[Base(h)] == guards
      modifies this`chains
      ensures chains == old(chains)[Base(h) := guards + Concat(JumpParts(h))]
    {
      var suffixes := [BeforeLogging(h), Before(h), User(h), After(h), AfterLogging(h), RejectChain(h), Track(h)];
      assert guards + Concat([]) == guards;
      assert chains == old(chains)[Base(h) := guards];
      for i := 0 to |suffixes|
        invariant chains == old(chains)[Base(h) := guards + Concat(JumpParts(h)[..i])]
      {
        AddRule(Base(h), [Counter, Verdict(Jump(suffixes[i]))]);
        JumpToIs(suffixes[i]);
        assert guards + Concat(JumpParts(h)[..i]) + JumpTo(suffixes[i]) == guards
               + (Concat(JumpParts(h)[..i]) + JumpTo(suffixes[i]));
        ConcatSnoc(JumpParts(h)[..i], JumpTo(suffixes[i]));
        assert JumpParts(h)[..i + 1] == JumpParts(h)[..i] + [JumpTo(suffixes[i])];
      }
      assert JumpParts(h)[..|suffixes|] == JumpParts(h);
    }

    // All three base chains, then every regular chain, empty.
    method CreateChains(ipv6: bool, pol: Policies)
      requires chains == map[] && policies == map[]
      modifies this`chains, this`policies
      ensures Complete(chains)
      ensures forall c :: chains[c] == if c.Base? then BaseChain(c.hook, ipv6) else []
      ensures policies == map[Input := BasePolicy(pol.input), Output := BasePolicy(pol.output),
                              ForwardHook := BasePolicy(pol.forward)]
    {
      hide BaseChain, BasePolicy;
      CompileBase(Input, ipv6, pol.input);
      CompileBase(Output, ipv6, pol.output);
      CompileBase(ForwardHook, ipv6, pol.forward);
      assert forall c :: c in chains ==> c.Base?;
      forall c: Chain | c.Base? ensures c in chains {
        match c.hook
        case Input =>
        case Output =>
        case ForwardHook =>
      }
      CreateMissing(ipv6);
    }

    method CreateMissing(ipv6: bool)
      requires forall c :: c in chains <==> c.Base?
      requires forall h :: chains[Base(h)] == BaseChain(h, ipv6)
      modifies this`chains
      ensures Complete(chains)
      ensures forall c :: chains[c] == if c.Base? then BaseChain(c.hook, ipv6) else []
    {
      hide BaseChain, Regular;
      var names := Regular();
      for i := 0 to |names|
        invariant forall c :: c in chains <==> c.Base? || c in names[..i]
        invariant forall c :: c in chains ==> chains[c] == if c.Base? then BaseChain(c.hook, ipv6) else []
      {
        CreateChain(names[i]);
        assert names[..i + 1] == names[..i] + [names[i]];
      }
      assert names[..|names|] == names;
      AllRegular();
    }

    method EmitInvalid()
      modifies this`chains
      ensures chains == Plus(old(chains), Before(Input), InvalidRules())
    {
      hide CtMatch, Plus;
      AddRule(Before(Input), CtMatch(1) + [Counter, Verdict(Jump(LogDeny))]);
      AddRule(Before(Input), CtMatch(1) + [Counter, Verdict(Drop)]);
      PlusPlus(old(chains), Before(Input), [Guarded(CtMatch(1), Jump(LogDeny))], [Guarded(CtMatch(1), Drop)]);
    }

    // not-local: our own, multicast and broadcast destinations return.
    method EmitNotLocal()
      requires NotLocal in chains
      modifies this`chains
      ensures chains == Plus(old(chains), NotLocal, NotLocalChain())
    {
      hide FibMatch, Plus, GuardAll;
      var log, drop := [LIMIT3, Counter, Verdict(Jump(LogDeny))], [Counter, Verdict(Drop)];
      AddRules(NotLocal, [FibMatch(2), FibMatch(5), FibMatch(3)], Return);
      AddRule(NotLocal, log);
      AddRule(NotLocal, drop);
      var backs := GuardAll([FibMatch(2), FibMatch(5), FibMatch(3)], Return);
      assert Guarded([], Drop) == drop;
      PlusPlus(old(chains), NotLocal, backs, [log]);
      PlusPlus(old(chains), NotLocal, backs + [log], [drop]);
      assert backs + [log] + [drop] == NotLocalChain();
    }

    method AddThreatBanRules(c: Chain)
      requires c in chains
      modifies this`chains
      ensures chains == Plus(old(chains), c, BanRules())
    {
      hide GuardAll, Plus;
      AddRules(c, [BanMatch(false), BanMatch(true)], Drop);
    }

    // compileBefore, first part: loopback, routing headers, bans, known
    // connections and invalid packets.
    method BeforeHead(ghost m: Chains)
      requires Complete(m) && chains == Grown(m, [], [], [], [])
      modifies this`chains
      ensures chains == Grown(m, HEAD_INPUT(), HEAD_OUTPUT(), HEAD_FORWARD(), [])
    {
      hide Plus, Grown, Concat, GuardAll, NfprotoMatch, IfaceMatch, RoutingTypeMatch, CtMatch, IcmpAccept, BanRules,
           InvalidRules;
      GrownComplete(m);
      AddRule(Before(Input), IfaceMatch(Iifname, LO) + [Counter, Verdict(Accept)]);
      GrowInput(m, [], [], [], [], LoRule(Iifname));
      AddRule(Before(Output), IfaceMatch(Oifname, LO) + [Counter, Verdict(Accept)]);
      ghost var i, o, f := [] + [LoRule(Iifname)], [], [];
      GrowOutput(m, i, o, f, [], LoRule(Oifname));
      o := o + [LoRule(Oifname)];
      for k := 0 to 3
        invariant chains == Grown(m, if k > 0 then i + [Rh0Rule()] else i, if k > 1 then o + [Rh0Rule()] else o,
                                  if k > 2 then f + [Rh0Rule()] else f, [])
      {
        AddRule(Before(HOOKS[k]), NfprotoMatch(true) + RoutingTypeMatch(0) + [Counter, Verdict(Drop)]);
        GrowInput(m, i, o, f, [], Rh0Rule());
        GrowOutput(m, i + [Rh0Rule()], o, f, [], Rh0Rule());
        GrowForward(m, i + [Rh0Rule()], o + [Rh0Rule()], f, [], Rh0Rule());
      }
      i, o, f := i + [Rh0Rule()], o + [Rh0Rule()], f + [Rh0Rule()];
      AddThreatBanRules(Before(Input));
      GrowInput(m, i, o, f, [], BanRules());
      i := i + [BanRules()];
      AddThreatBanRules(Before(ForwardHook));
      GrowForward(m, i, o, f, [], BanRules());
      f := f + [BanRules()];
      for k := 0 to 3
        invariant chains ==
                  Grown(m, if k > 0 then i + [EstablishedRule()] else i, if k > 1 then o + [EstablishedRule()] else o,
                                  if k > 2 then f + [EstablishedRule()] else f, [])
      {
        AddRule(Before(HOOKS[k]), CtMatch(6) + [Counter, Verdict(Accept)]);
        GrowInput(m, i, o, f, [], EstablishedRule());
        GrowOutput(m, i + [EstablishedRule()], o, f, [], EstablishedRule());
        GrowForward(m, i + [EstablishedRule()], o + [EstablishedRule()], f, [], EstablishedRule());
      }
      i, o, f := i + [EstablishedRule()], o + [EstablishedRule()], f + [EstablishedRule()];
      AddRules(Before(Input), IcmpAccepts(true, REPLY6), Accept);
      GrowInput(m, i, o, f, [], GuardAll(IcmpAccepts(true, REPLY6), Accept));
      i := i + [GuardAll(IcmpAccepts(true, REPLY6), Accept)];
      EmitInvalid();
      GrowInput(m, i, o, f, [], InvalidRules());
      i := i + [InvalidRules()];
      assert i == HEAD_INPUT() && o == HEAD_OUTPUT() && f == HEAD_FORWARD();
    }

    // One accepting rule per ICMPv6 type.
    method Emit6(c: Chain, list: seq<Icmp6>)
      requires c in chains
      modifies this`chains
      ensures chains == Plus(old(chains), c, GuardAll(Icmp6Matches(list), Accept))
    {
      hide IcmpAccept, AddrMatch, HopLimitMatch;
      PlusNothing(chains, c);
      for i := 0 to |list|
        invariant chains == Plus(old(chains), c, GuardAll(Icmp6Matches(list[..i]), Accept))
      {
        var r := list[i];
        var ex := IcmpAccept(true, r.t);
        if r.linkLocal { ex := ex + AddrMatch(true, LINK_LOCAL, true); }
        if r.hopLimit.Some? { ex := ex + HopLimitMatch(r.hopLimit.value); }
        assert ex == Icmp6Match(r);
        AddRule(c, ex + [Counter, Verdict(Accept)]);
        PlusPlus(old(chains), c, GuardAll(Icmp6Matches(list[..i]), Accept), [Guarded(Icmp6Match(r), Accept)]);
        assert GuardAll(Icmp6Matches(list[..i + 1]), Accept)
            == GuardAll(Icmp6Matches(list[..i]), Accept) + [Guarded(Icmp6Match(r), Accept)];
      }
      assert list[..|list|] == list;
    }

    // compileBefore, second part: the ICMP rules.
    method BeforeIcmp(ghost m: Chains)
      requires Complete(m) && chains == Grown(m, HEAD_INPUT(), HEAD_OUTPUT(), HEAD_FORWARD(), [])
      modifies this`chains
      ensures chains ==
              Grown(m, HEAD_INPUT() + ICMP_INPUT(), HEAD_OUTPUT() + ICMP_OUTPUT(), HEAD_FORWARD() + ICMP_FORWARD(), [])
    {
      hide Plus, Grown, GuardAll, IcmpAccepts, Icmp6Matches, HEAD_INPUT, HEAD_OUTPUT, HEAD_FORWARD;
      GrownComplete(m);
      ghost var i, o, f := HEAD_INPUT(), HEAD_OUTPUT(), HEAD_FORWARD();
      AddRules(Before(Input), IcmpAccepts(false, ERRORS4), Accept);
      GrowInput(m, i, o, f, [], GuardAll(IcmpAccepts(false, ERRORS4), Accept));
      i := i + [GuardAll(IcmpAccepts(false, ERRORS4), Accept)];
      AddRules(Before(ForwardHook), IcmpAccepts(false, ERRORS4), Accept);
      GrowForward(m, i, o, f, [], GuardAll(IcmpAccepts(false, ERRORS4), Accept));
      f := f + [GuardAll(IcmpAccepts(false, ERRORS4), Accept)];
      Emit6(Before(Input), V6_HEAD + V6_TAIL);
      GrowInput(m, i, o, f, [], GuardAll(Icmp6Matches(V6_HEAD + V6_TAIL), Accept));
      i := i + [GuardAll(Icmp6Matches(V6_HEAD + V6_TAIL), Accept)];
      Emit6(Before(Output), V6_HEAD + [Plain(129)] + V6_TAIL);
      GrowOutput(m, i, o, f, [], GuardAll(Icmp6Matches(V6_HEAD + [Plain(129)] + V6_TAIL), Accept));
      o := o + [GuardAll(Icmp6Matches(V6_HEAD + [Plain(129)] + V6_TAIL), Accept)];
      Emit6(Before(ForwardHook), V6_HEAD + [Plain(129)]);
      GrowForward(m, i, o, f, [], GuardAll(Icmp6Matches(V6_HEAD + [Plain(129)]), Accept));
      f := f + [GuardAll(Icmp6Matches(V6_HEAD + [Plain(129)]), Accept)];
      AddRules(Before(Input), IcmpAccepts(true, MOBILE6), Accept);
      GrowInput(m, i, o, f, [], GuardAll(IcmpAccepts(true, MOBILE6), Accept));
      i := i + [GuardAll(IcmpAccepts(true, MOBILE6), Accept)];
      assert i == HEAD_INPUT() + ICMP_INPUT();
      assert o == HEAD_OUTPUT() + ICMP_OUTPUT();
      assert f == HEAD_FORWARD() + ICMP_FORWARD();
    }

    // compileBefore, last part: DHCP, non-local drops and multicast.
    method BeforeTail(ghost m: Chains, ghost i: seq<seq<NftRule>>, ghost o: seq<seq<NftRule>>,
        ghost f: seq<seq<NftRule>>)
      requires Complete(m) && chains == Grown(m, i, o, f, [])
      modifies this`chains
      ensures chains == Grown(m, i + [DhcpRules(), NotLocalRule(), GuardAll(MulticastMatches(), Accept)], o, f,
              NotLocalChain())
    {
      hide Plus, Grown, GuardAll, UdpMatch, NfprotoMatch, NotLocalChain;
      GrownComplete(m);
      AddRules(Before(Input), [UdpMatch(false, AnyAddr, Some(67), AnyAddr, 68),
                               UdpMatch(true, LINK_LOCAL, Some(547), LINK_LOCAL, 546)], Accept);
      GrowInput(m, i, o, f, [], DhcpRules());
      AddRule(Before(Input), NfprotoMatch(false) + [Counter, Verdict(Jump(NotLocal))]);
      GrowInput(m, i + [DhcpRules()], o, f, [], NotLocalRule());
      EmitNotLocal();
      GrowNotLocal(m, i + [DhcpRules()] + [NotLocalRule()], o, f, [], NotLocalChain());
      assert [] + NotLocalChain() == NotLocalChain();
      AddRules(Before(Input), MulticastMatches(), Accept);
      GrowInput(m, i + [DhcpRules()] + [NotLocalRule()], o, f, NotLocalChain(), GuardAll(MulticastMatches(), Accept));
      assert i + [DhcpRules()] + [NotLocalRule()] + [GuardAll(MulticastMatches(), Accept)]
          == i + [DhcpRules(), NotLocalRule(), GuardAll(MulticastMatches(), Accept)];
    }

    method CompileBefore()
      requires Complete(chains)
      modifies this`chains
      ensures Appends(old(chains), chains, BeforeSection)
    {
      hide Grown, Appends, HEAD_INPUT, HEAD_OUTPUT, HEAD_FORWARD, ICMP_INPUT, ICMP_OUTPUT, ICMP_FORWARD, GuardAll,
           NotLocalChain;
      GrownNothing(chains);
      BeforeHead(chains);
      BeforeIcmp(old(chains));
      BeforeTail(old(chains), HEAD_INPUT() + ICMP_INPUT(), HEAD_OUTPUT() + ICMP_OUTPUT(),
          HEAD_FORWARD() + ICMP_FORWARD());
      GrownIsBefore(old(chains));
    }

    // Broadcasts, NetBIOS and DHCP go straight to the policy.
    method CompileAfter()
      requires Complete(chains)
      modifies this`chains
      ensures Appends(old(chains), chains, AfterSection)
    {
      hide GuardAll, AfterMatches;
      AddRules(After(Input), AfterMatches(), Jump(SkipToPolicy(Input)));
    }

    // ---- policy, limit and logging chains ----

    method CompilePolicy(h: Hook, pol: Policy)
      requires Complete(chains)
      modifies this`chains
      ensures Complete(chains) && Appends(old(chains), chains, c => HookPolicy(h, pol, c))
    {
      hide GuardAll;
      assert [] + [Counter, Verdict(RejectWith)] == [Counter, Verdict(RejectWith)];
      assert [] + [Counter, Verdict(Final(PolicyVerdict(pol)))] == [Counter, Verdict(Final(PolicyVerdict(pol)))];
      PlusNothing(chains, RejectChain(h));
      if pol == RejectPolicy {
        AddRule(RejectChain(h), [Counter, Verdict(RejectWith)]);
      }
      PlusNothing(chains, Track(h));
      if pol == AllowPolicy {
        AddRules(Track(h), TrackMatches(), Accept);
      }
      AddRule(SkipToPolicy(h), [Counter, Verdict(Final(PolicyVerdict(pol)))]);
      assert chains == Plus(Plus(Plus(old(chains), RejectChain(h), RejectRules(pol)), Track(h), TrackRules(pol)),
                            SkipToPolicy(h), SkipRules(pol));
      PlusPolicy(old(chains), h, pol);
    }

    method CompilePolicies(pol: Policies)
      requires Complete(chains)
      modifies this`chains
      ensures Appends(old(chains), chains, c => PolicySection(pol, c))
    {
      hide RejectRules, TrackRules, SkipRules, Appends;
      CompilePolicy(Input, pol.input);
      ghost var m1 := chains;
      CompilePolicy(Output, pol.output);
      ghost var m2 := chains;
      CompilePolicy(ForwardHook, pol.forward);
      ThreeAppends(old(chains), m1, m2, chains, c => HookPolicy(Input, pol.input, c),
          c => HookPolicy(Output, pol.output, c),
                   c => HookPolicy(ForwardHook, pol.forward, c), c => PolicySection(pol, c));
    }

    method CompileLimitChains(level: Level)
      requires Complete(chains)
      modifies this`chains
      ensures Appends(old(chains), chains, c => LimitSection(level, c))
    {
      hide Plus, Appends;
      var accept, reject: NftRule := [Counter, Verdict(Accept)], [Counter, Verdict(RejectWith)];
      assert Guarded([], Accept) == accept && Guarded([], RejectWith) == reject;
      AddRule(UserLimitAccept, accept);
      PlusComplete(old(chains), UserLimitAccept, [accept]);
      PlusNothing(chains, UserLimit);
      ghost var m := chains;
      ghost var log: seq<NftRule> := if level != Off then [[RateLimit(3, 5), LogPrefix("[BFW LIMIT BLOCK] ")]] else [];
      if level != Off {
        AddRule(UserLimit, [RateLimit(3, 5), LogPrefix("[BFW LIMIT BLOCK] ")]);
      }
      AddRule(UserLimit, reject);
      PlusPlus(m, UserLimit, log, [reject]);
      assert UserLimitRules(level) == log + [reject];
      LimitAppended(old(chains), level);
    }

    method CompileLogging(level: Level, pol: Policies)
      requires Complete(chains)
      modifies this`chains
      ensures Appends(old(chains), chains, c => LoggingSection(level, pol, c))
    {
      hide CtMatch, Appends, AfterLoggingRules, LogDenyRules, LogAllowRules, BeforeLoggingRules;
      if level == Off {
        LoggingOff();
        OffSection(pol);
        AppendsSame(old(chains), chains, OffRules, c => LoggingSection(level, pol, c));
        return;
      }
      LogPolicies(level, pol);
      ghost var m1 := chains;
      LogMisc(level);
      ghost var m2 := chains;
      if level != Low {
        Audits(level);
      } else {
        NoAudits();
        AppendsNothing(chains, c => AuditSection(level, c));
      }
      LoggingParts(level, pol);
      ThreeAppends(old(chains), m1, m2, chains, c => PolicyLogs(level, pol, c), c => MiscLogs(level, c),
                   c => AuditSection(level, c), c => LoggingSection(level, pol, c));
    }

    // A return at the top disables the log rules beneath it.
    method LoggingOff()
      requires Complete(chains)
      modifies this`chains
      ensures Complete(chains) && Appends(old(chains), chains, OffRules)
    {
      AddRule(UserLogging(Input), [Counter, Verdict(Return)]);
      AddRule(UserLogging(Output), [Counter, Verdict(Return)]);
      AddRule(UserLogging(ForwardHook), [Counter, Verdict(Return)]);
      OneOfThree();
    }

    // Packets about to hit the policy.
    method LogPolicies(level: Level, pol: Policies)
      requires Complete(chains) && level != Off
      modifies this`chains
      ensures Complete(chains) && Appends(old(chains), chains, c => PolicyLogs(level, pol, c))
    {
      hide Plus, AfterLoggingRules;
      LogPolicy(Input, level, pol.input);
      LogPolicy(Output, level, pol.output);
      LogPolicy(ForwardHook, level, pol.forward);
      OneOfThree();
      HooksAppended(old(chains), AfterLogging(Input), AfterLoggingRules(level, pol.input),
                    AfterLogging(Output), AfterLoggingRules(level, pol.output),
                    AfterLogging(ForwardHook), AfterLoggingRules(level, pol.forward), c => PolicyLogs(level, pol, c));
    }

    method LogPolicy(h: Hook, level: Level, pol: Policy)
      requires Complete(chains) && level != Off
      modifies this`chains
      ensures Complete(chains) && chains == Plus(old(chains), AfterLogging(h), AfterLoggingRules(level, pol))
    {
      PlusNothing(chains, AfterLogging(h));
      if pol == DenyPolicy || pol == RejectPolicy {
        AddRule(AfterLogging(h), Limited(level) + [LogPrefix("[BFW BLOCK] ")]);
      } else if level != Low {
        AddRule(AfterLogging(h), Limited(level) + [LogPrefix("[BFW ALLOW] ")]);
      }
    }

    method LogMisc(level: Level)
      requires Complete(chains) && level != Off
      modifies this`chains
      ensures Complete(chains) && Appends(old(chains), chains, c => MiscLogs(level, c))
    {
      hide CtMatch, Plus, Limited;
      var first := if level == Low then CtMatch(1) + Limited(level) + [Counter, Verdict(Return)]
                   else CtMatch(1) + Limited(level) + [LogPrefix("[BFW AUDIT INVALID] ")];
      AddRule(LogDeny, first);
      AddRule(LogDeny, Limited(level) + [LogPrefix("[BFW BLOCK] ")]);
      PlusPlus(old(chains), LogDeny, [first], [Limited(level) + [LogPrefix("[BFW BLOCK] ")]]);
      assert [first] + [Limited(level) + [LogPrefix("[BFW BLOCK] ")]] == LogDenyRules(level);
      AddRule(LogAllow, Limited(level) + [LogPrefix("[BFW ALLOW] ")]);
      TwoPlus(old(chains), LogDeny, LogDenyRules(level), LogAllow, LogAllowRules(level));
    }

    // Audit lines from medium on.
    method Audits(level: Level)
      requires Complete(chains) && level != Off && level != Low
      modifies this`chains
      ensures Complete(chains) && Appends(old(chains), chains, c => AuditSection(level, c))
    {
      hide Plus, BeforeLoggingRules;
      Audit(Input, level);
      Audit(Output, level);
      Audit(ForwardHook, level);
      OneOfThree();
      HooksAppended(old(chains), BeforeLogging(Input), BeforeLoggingRules(level), BeforeLogging(Output),
          BeforeLoggingRules(level),
                    BeforeLogging(ForwardHook), BeforeLoggingRules(level), c => AuditSection(level, c));
    }

    method Audit(h: Hook, level: Level)
      requires Complete(chains) && level != Off && level != Low
      modifies this`chains
      ensures Complete(chains) && chains == Plus(old(chains), BeforeLogging(h), BeforeLoggingRules(level))
    {
      hide CtMatch;
      var ex: NftRule := [];
      if level == Medium { ex := CtMatch(8) + [LIMIT3]; }
      if level == High { ex := [LIMIT3]; }
      ghost var head := ex;
      ex := ex + [LogPrefix("[BFW AUDIT] ")];
      assert head == [] ==> ex == [LogPrefix("[BFW AUDIT] ")];
      assert [LIMIT3] + [LogPrefix("[BFW AUDIT] ")] == [LIMIT3, LogPrefix("[BFW AUDIT] ")];
      AddRule(BeforeLogging(h), ex);
      assert [ex] == BeforeLoggingRules(level);
    }

    // ---- address sets ----

    // Both families are always created, so lookups never miss a set.
    method CompileSet(name4: SetName, name6: SetName, sources: Sources) returns (ok: bool)
      requires name4 != name6 && ValidSources(sources)
      modifies this`sets
      ensures ok <==> None !in sources
      ensures ok ==> && name4 in sets && name6 in sets && sets == old(sets)[name4 := sets[name4]][name6 := sets[name6]]
                     && sets[name4].interval && Encodes(sets[name4].elems, sources, 4)
                     && sets[name6].interval && Encodes(sets[name6].elems, sources, 16)
    {
      hide Encodes, ValidSources;
      var r := CompileAddressSet(sources);
      if r.Err? { return false; }
      sets := sets[name4 := SetBody(true, r.value.0)][name6 := SetBody(true, r.value.1)];
      return true;
    }

    method CompileThreatBans(st: State, now: int) returns (ok: bool)
      requires sets == map[] && ValidSources(LiveBans(st.bans, now))
      modifies this`sets
      ensures ok <==> None !in LiveBans(st.bans, now)
      ensures ok ==> BansLoaded(sets, st, now) && AddressSetsOnly(sets)
    {
      hide Encodes, ValidSources;
      var addresses: Sources := [];
      for i := 0 to |st.bans|
        invariant addresses == LiveBans(st.bans[..i], now)
      {
        assert st.bans[..i + 1][..i] == st.bans[..i];
        if st.bans[i].expiresAt > now {
          addresses := addresses + [st.bans[i].source];
        }
      }
      assert st.bans[..|st.bans|] == st.bans;
      ok := CompileSet(ThreatBans(false), ThreatBans(true), addresses);
    }

    method CompileNamedSets(named: seq<IPSet>) returns (ok: bool)
      requires forall s :: s in named ==> ValidSources(s.sources)
      requires AddressSetsOnly(sets)
      modifies this`sets
      ensures ok <==> forall s :: s in named ==> None !in s.sources
      ensures ok ==> AddressSetsOnly(sets) && NamedLoaded(sets, named)
      ensures ok ==> forall n :: n in old(sets) && n.ThreatBans? ==> n in sets && sets[n] == old(sets)[n]
    {
      hide ValidSources, Encodes, SetKey, Unshadowed;
      for i := 0 to |named|
        invariant forall s :: s in named[..i] ==> None !in s.sources
        invariant AddressSetsOnly(sets) && NamedLoaded(sets, named[..i])
        invariant forall n :: n in old(sets) && n.ThreatBans? ==> n in sets && sets[n] == old(sets)[n]
      {
        var s := named[i];
        assert named[..i + 1] == named[..i] + [s];
        SetKeysDiffer(s.name);
        ghost var prior := sets;
        ok := CompileSet(UserSet(SetKey(s.name, false)), UserSet(SetKey(s.name, true)), s.sources);
        if !ok { return; }
        assert HalvesLoaded(sets, s);
        NamedAdded(prior, sets, named[..i], s);
      }
      assert named[..|named|] == named;
      return true;
    }

    // ---- compile ----

    method Compile(st: State, etc: Etc, now: int) returns (ok: bool, ghost prog: Program)
      requires chains == map[] && sets == map[] && setID == 0 && policies == map[]
      requires ValidSources(LiveBans(st.bans, now)) && forall s :: s in st.sets ==> ValidSources(s.sources)
      modifies this
      ensures ok <==> st.panic || (&& None !in LiveBans(st.bans, now)
                                   && (forall s :: s in st.sets ==> None !in s.sources)
                                   && (forall r :: r in st.rules4 ==> RuleCompiles(r, false, now))
                                   && (forall r :: r in st.rules6 ==> RuleCompiles(r, true, now))
                                   && (forall n :: n in st.natRules ==> NatCompiles(n)))
      ensures st.panic ==> sets == map[] && Closed(chains, policies)
      ensures ok && !st.panic ==>
                && Loaded(chains, sets, st, EffectivePolicies(st, etc), EffectiveIpv6(st, etc), now, prog)
                && (forall h :: h in policies && policies[h] == KernelPolicy(st, etc, h))
                && Decides(chains, sets, policies, st, etc, now)
    {
      hide Loaded, ValidSources, BaseChain, BasePolicy, EffectivePolicies, EffectiveIpv6, CompileRules, RuleCompiles;
      hide BansLoaded, NamedLoaded, AddressSetsOnly, Holds, Appends, UserStart, LiveBans, Decides, KernelPolicy;
      prog := Program(PerHook([], [], []), PerHook([], [], []), map[], 0);
      if st.panic {
        Panic();
        return true, prog;
      }
      var pol, ipv6 := EffectivePolicies(st, etc), EffectiveIpv6(st, etc);
      ok := CompileBuiltin(st, pol, ipv6, now);
      if !ok { return; }
      ghost var base, start := chains, sets;
      ghost var s := UserStart(st.logging, start, 0);
      RulesCompile(s, st.rules4, false, now);
      StartHolds(base, pol, ipv6, st.logging, start);
      MetersInStart(start);
      ok := CompileList(st.rules4, false, now, base, s);
      if !ok { return; }
      ghost var four := CompileRules(s, st.rules4, false, now).value;
      RulesCompile(four, st.rules6, true, now);
      ok := CompileList(st.rules6, true, now, base, four);
      if !ok { return; }
      ok := CompileNat(st.natRules);
      if !ok { return; }
      prog := CompileRules(four, st.rules6, true, now).value;
      CompleteLoads(st, pol, ipv6, now, base, start, four, prog, chains);
      PoliciesDecide(chains, sets, policies, st, etc, now, prog);
    }

    // Panic: bare base chains with a drop policy, nothing else.
    method Panic()
      modifies this`chains, this`policies
      ensures Closed(chains, policies)
    {
      chains := map[Base(Input) := [], Base(Output) := [], Base(ForwardHook) := []];
      policies := map[Input := Dropped, Output := Dropped, ForwardHook := Dropped];
      forall h: Hook ensures Base(h) in chains && chains[Base(h)] == [] && h in policies && policies[h] == Dropped {
        match h
        case Input =>
        case Output =>
        case ForwardHook =>
      }
      EmptyCloses(chains, policies);
    }

    // compileNAT, as far as it can fail: its tables are not modelled.
    method CompileNat(rules: seq<NatRule>) returns (ok: bool)
      ensures ok <==> forall n :: n in rules ==> NatCompiles(n)
    {
      for i := 0 to |rules|
        invariant forall k :: 0 <= k < i ==> NatCompiles(rules[k])
      {
        var n := rules[i];
        assert n in rules;
        if n.proto != NoProto && n.proto != AnyProto && ProtoNum(n.proto).None? { return false; }
        match n.kind
        case Masquerade =>
        case Dnat =>
          if n.toHost.None? { return false; }
          if n.toHost.value != n.V6() { return false; }
          if n.toPort.BadPort? { return false; }
        case OtherNat => return false;
      }
      return true;
    }

    // Everything compile() does before the user rules.
    method CompileBuiltin(st: State, pol: Policies, ipv6: bool, now: int) returns (ok: bool)
      requires chains == map[] && sets == map[] && policies == map[]
      requires ValidSources(LiveBans(st.bans, now)) && forall s :: s in st.sets ==> ValidSources(s.sources)
      modifies this`chains, this`policies, this`sets
      ensures ok <==> None !in LiveBans(st.bans, now) && forall s :: s in st.sets ==> None !in s.sources
      ensures ok ==> Builtin(chains, pol, ipv6, st.logging)
      ensures ok ==> AddressSetsOnly(sets) && BansLoaded(sets, st, now) && NamedLoaded(sets, st.sets)
      ensures ok ==> forall h :: h in policies && policies[h] == BasePolicy(pol.Get(h))
    {
      hide ValidSources, BaseChain, BasePolicy, BansLoaded, NamedLoaded, AddressSetsOnly, Appends, Builtin, LiveBans;
      CreateChains(ipv6, pol);
      forall h: Hook ensures h in policies && policies[h] == BasePolicy(pol.Get(h)) {
        match h
        case Input =>
        case Output =>
        case ForwardHook =>
      }
      ghost var m0 := chains;
      ok := CompileThreatBans(st, now);
      if !ok { return; }
      CompileBefore();
      ghost var m1 := chains;
      AppendsComplete(m0, m1, BeforeSection);
      CompileAfter();
      ghost var m2 := chains;
      AppendsComplete(m1, m2, AfterSection);
      AddRule(Before(Output), [Counter, Verdict(Jump(UserEgress))]);
      EgressAppends(m2, chains);
      ghost var m3 := chains;
      CompilePolicies(pol);
      ghost var m4 := chains;
      AppendsComplete(m3, m4, c => PolicySection(pol, c));
      CompileLimitChains(st.logging);
      ghost var m5 := chains;
      AppendsComplete(m4, m5, c => LimitSection(st.logging, c));
      CompileLogging(st.logging, pol);
      BuiltinSections(m0, m1, m2, m3, m4, m5, chains, pol, ipv6, st.logging);
      ghost var bans := sets;
      ok := CompileNamedSets(st.sets);
      if ok { BansStay(bans, sets, st, now); }
    }
  }

  // ---- sections and the loaded ruleset ----

  lemma AppendsComplete(m: Chains, m': Chains, section: Chain -> seq<NftRule>)
    requires Complete(m) && Appends(m, m', section)
    ensures Complete(m')
  {
  }

  lemma EgressAppends(m: Chains, m': Chains)
    requires Complete(m) && m' == Plus(m, Before(Output), [[Counter, Verdict(Jump(UserEgress))]])
    ensures Complete(m') && Appends(m, m', EgressSection)
  {
    assert Guarded([], Jump(UserEgress)) == [Counter, Verdict(Jump(UserEgress))];
  }

  lemma PlusComplete(m: Chains, c: Chain, x: seq<NftRule>)
    requires Complete(m)
    ensures Complete(Plus(m, c, x))
  {
  }

  lemma PlusPolicy(m: Chains, h: Hook, pol: Policy)
    requires Complete(m)
    ensures var m' := Plus(Plus(Plus(m, RejectChain(h), RejectRules(pol)), Track(h), TrackRules(pol)), SkipToPolicy(h),
            SkipRules(pol));
            Complete(m') && Appends(m, m', c => HookPolicy(h, pol, c))
  {
    hide RejectRules, TrackRules, SkipRules;
  }

  function HookPolicy(h: Hook, pol: Policy, c: Chain): seq<NftRule>
  {
    if c == RejectChain(h) then RejectRules(pol)
    else if c == Track(h) then TrackRules(pol)
    else if c == SkipToPolicy(h) then SkipRules(pol) else []
  }

  lemma ThreeAppends(m0: Chains, m1: Chains, m2: Chains, m3: Chains, s1: Chain -> seq<NftRule>,
      s2: Chain -> seq<NftRule>,
                     s3: Chain -> seq<NftRule>, s: Chain -> seq<NftRule>)
    requires Appends(m0, m1, s1) && Appends(m1, m2, s2) && Appends(m2, m3, s3)
    requires forall c :: s(c) == s1(c) + (s2(c) + s3(c))
    ensures Appends(m0, m3, s)
  {
    forall c | c in m0 ensures m3[c] == m0[c] + s(c) {
      assert m0[c] + s1(c) + s2(c) + s3(c) == m0[c] + (s1(c) + (s2(c) + s3(c)));
    }
  }

  lemma AppendsSame(m: Chains, m': Chains, s1: Chain -> seq<NftRule>, s2: Chain -> seq<NftRule>)
    requires Appends(m, m', s1) && forall c :: s1(c) == s2(c)
    ensures Appends(m, m', s2)
  {
  }

  lemma AppendsNothing(m: Chains, s: Chain -> seq<NftRule>)
    requires forall c :: s(c) == []
    ensures Appends(m, m, s)
  {
  }

  // The parts of the logging section.
  function OffRules(c: Chain): seq<NftRule>
  {
    if c.UserLogging? then [[Counter, Verdict(Return)]] else []
  }

  function PolicyLogs(level: Level, pol: Policies, c: Chain): seq<NftRule>
  {
    if c.AfterLogging? then AfterLoggingRules(level, pol.Get(c.hook)) else []
  }

  function MiscLogs(level: Level, c: Chain): seq<NftRule>
  {
    if c == LogDeny then LogDenyRules(level) else if c == LogAllow then LogAllowRules(level) else []
  }

  function AuditSection(level: Level, c: Chain): seq<NftRule>
  {
    if c.BeforeLogging? then BeforeLoggingRules(level) else []
  }

  lemma OneOfThree()
    ensures forall c: Chain ::
            c.UserLogging? ==> c == UserLogging(Input) || c == UserLogging(Output) || c == UserLogging(ForwardHook)
    ensures forall c: Chain ::
            c.AfterLogging? ==> c == AfterLogging(Input) || c == AfterLogging(Output) || c == AfterLogging(ForwardHook)
    ensures forall c: Chain ::
            c.BeforeLogging? ==>
              c == BeforeLogging(Input) || c == BeforeLogging(Output) || c == BeforeLogging(ForwardHook)
  {
    forall c: Chain | c.UserLogging?
      ensures c == UserLogging(Input) || c == UserLogging(Output) || c == UserLogging(ForwardHook)
    {
      match c.hook
      case Input =>
      case Output =>
      case ForwardHook =>
    }
    forall c: Chain | c.AfterLogging?
      ensures c == AfterLogging(Input) || c == AfterLogging(Output) || c == AfterLogging(ForwardHook)
    {
      match c.hook
      case Input =>
      case Output =>
      case ForwardHook =>
    }
    forall c: Chain | c.BeforeLogging?
      ensures c == BeforeLogging(Input) || c == BeforeLogging(Output) || c == BeforeLogging(ForwardHook)
    {
      match c.hook
      case Input =>
      case Output =>
      case ForwardHook =>
    }
  }

  lemma NoAudits()
    ensures forall c :: AuditSection(Low, c) == []
  {
  }

  lemma OffSection(pol: Policies)
    ensures forall c :: OffRules(c) == LoggingSection(Off, pol, c)
  {
  }

  lemma LoggingParts(level: Level, pol: Policies)
    requires level != Off
    ensures forall c ::
            LoggingSection(level, pol, c) == PolicyLogs(level, pol, c) + (MiscLogs(level, c) + AuditSection(level, c))
  {
    hide AfterLoggingRules, LogDenyRules, LogAllowRules, BeforeLoggingRules;
  }

  lemma HooksAppended(m: Chains, c1: Chain, x1: seq<NftRule>, c2: Chain, x2: seq<NftRule>, c3: Chain, x3: seq<NftRule>,
                      s: Chain -> seq<NftRule>)
    requires Complete(m) && c1 != c2 && c2 != c3 && c1 != c3
    requires s(c1) == x1 && s(c2) == x2 && s(c3) == x3 && forall c :: c != c1 && c != c2 && c != c3 ==> s(c) == []
    ensures Appends(m, Plus(Plus(Plus(m, c1, x1), c2, x2), c3, x3), s)
  {
  }

  lemma TwoPlus(m: Chains, c: Chain, x: seq<NftRule>, d: Chain, y: seq<NftRule>)
    requires Complete(m) && c != d
    ensures Complete(Plus(Plus(m, c, x), d, y))
    ensures Appends(m, Plus(Plus(m, c, x), d, y), e => if e == c then x else if e == d then y else [])
  {
  }

  lemma LimitAppended(m: Chains, level: Level)
    requires Complete(m)
    ensures Appends(m, Plus(Plus(m, UserLimitAccept, [Guarded([], Accept)]), UserLimit, UserLimitRules(level)),
            c => LimitSection(level, c))
  {
    hide UserLimitRules, Guarded;
    TwoPlus(m, UserLimitAccept, [Guarded([], Accept)], UserLimit, UserLimitRules(level));
  }

  lemma GrownNothing(m: Chains)
    requires Complete(m)
    ensures Grown(m, [], [], [], []) == m
  {
    PlusNothing(m, Before(Input));
    PlusNothing(m, Before(Output));
    PlusNothing(m, Before(ForwardHook));
    PlusNothing(m, NotLocal);
  }

  function ICMP_INPUT(): seq<seq<NftRule>>
  {
    [GuardAll(IcmpAccepts(false, ERRORS4), Accept), GuardAll(Icmp6Matches(V6_HEAD + V6_TAIL), Accept),
     GuardAll(IcmpAccepts(true, MOBILE6), Accept)]
  }

  function ICMP_OUTPUT(): seq<seq<NftRule>> { [GuardAll(Icmp6Matches(V6_HEAD + [Plain(129)] + V6_TAIL), Accept)] }

  function ICMP_FORWARD(): seq<seq<NftRule>>
  {
    [GuardAll(IcmpAccepts(false, ERRORS4), Accept), GuardAll(Icmp6Matches(V6_HEAD + [Plain(129)]), Accept)]
  }

  lemma GrownIsBefore(m: Chains)
    requires Complete(m)
    ensures var i := HEAD_INPUT() + ICMP_INPUT() + [DhcpRules(), NotLocalRule(), GuardAll(MulticastMatches(), Accept)];
            Appends(m, Grown(m, i, HEAD_OUTPUT() + ICMP_OUTPUT(), HEAD_FORWARD() + ICMP_FORWARD(), NotLocalChain()),
              BeforeSection)
  {
    hide Concat, GuardAll, NotLocalChain, IcmpAccepts, Icmp6Matches, LoRule, Rh0Rule, BanRules, EstablishedRule,
         InvalidRules;
    hide DhcpRules, NotLocalRule, MulticastMatches;
    assert HEAD_INPUT() + ICMP_INPUT() + [DhcpRules(), NotLocalRule(), GuardAll(MulticastMatches(), Accept)] ==
           BeforeParts(Input);
    assert HEAD_OUTPUT() + ICMP_OUTPUT() == BeforeParts(Output)[..4];
    assert HEAD_FORWARD() + ICMP_FORWARD() == BeforeParts(ForwardHook);
    hide BeforeParts, HEAD_INPUT, HEAD_OUTPUT, HEAD_FORWARD, ICMP_INPUT, ICMP_OUTPUT, ICMP_FORWARD;
  }

  // What every chain holds before the user rules.
  function BuiltinRules(c: Chain, pol: Policies, ipv6: bool, level: Level): seq<NftRule>
  {
    match c
    case Base(h) => BaseChain(h, ipv6)
    case Before(h) => BeforeChain(h)
    case After(h) => AfterChain(h)
    case NotLocal => NotLocalChain()
    case UserLimit => UserLimitRules(level)
    case UserLimitAccept => [Guarded([], Accept)]
    case UserLogging(_) => UserLoggingHead(level)
    case AfterLogging(h) => AfterLoggingRules(level, pol.Get(h))
    case BeforeLogging(_) => BeforeLoggingRules(level)
    case LogDeny => LogDenyRules(level)
    case LogAllow => LogAllowRules(level)
    case RejectChain(h) => RejectRules(pol.Get(h))
    case Track(h) => TrackRules(pol.Get(h))
    case SkipToPolicy(h) => SkipRules(pol.Get(h))
    case User(_) => []
    case UserEgress => []
  }

  ghost predicate Builtin(m: Chains, pol: Policies, ipv6: bool, level: Level)
  {
    Complete(m) && forall c :: m[c] == BuiltinRules(c, pol, ipv6, level)
  }

  lemma EgressEnds()
    ensures Concat(BeforeParts(Output)[..4]) + [Guarded([], Jump(UserEgress))] == BeforeChain(Output)
  {
    hide GuardAll, Icmp6Matches, LoRule, Rh0Rule, EstablishedRule, Concat;
    ConcatSnoc(BeforeParts(Output)[..4], [Guarded([], Jump(UserEgress))]);
    assert BeforeParts(Output)[..4] + [[Guarded([], Jump(UserEgress))]] == BeforeParts(Output);
  }

  lemma BuiltinSections(m0: Chains, m1: Chains, m2: Chains, m3: Chains, m4: Chains, m5: Chains, m6: Chains,
                        pol: Policies, ipv6: bool, level: Level)
    requires Complete(m0) && forall c :: m0[c] == if c.Base? then BaseChain(c.hook, ipv6) else []
    requires Appends(m0, m1, BeforeSection) && Appends(m1, m2, AfterSection)
    requires Appends(m2, m3, EgressSection) && Appends(m3, m4, c => PolicySection(pol, c))
    requires Appends(m4, m5, c => LimitSection(level, c)) && Appends(m5, m6, c => LoggingSection(level, pol, c))
    ensures Builtin(m6, pol, ipv6, level)
  {
    hide BaseChain, BeforeChain, AfterChain, NotLocalChain, UserLimitRules, UserLoggingHead, AfterLoggingRules,
         BeforeLoggingRules;
    hide LogDenyRules, LogAllowRules, RejectRules, TrackRules, SkipRules, Concat, BeforeParts, Guarded;
    forall c: Chain ensures m6[c] == BuiltinRules(c, pol, ipv6, level) {
      SumOfSections(c, ipv6, pol, level);
      assert m6[c] == (if c.Base? then BaseChain(c.hook, ipv6) else []) + BeforeSection(c)
                      + AfterSection(c) + EgressSection(c) + PolicySection(pol, c)
                      + LimitSection(level, c) + LoggingSection(level, pol, c);
    }
  }

  lemma SumOfSections(c: Chain, ipv6: bool, pol: Policies, level: Level)
    ensures (if c.Base? then BaseChain(c.hook, ipv6) else []) + BeforeSection(c)
            + AfterSection(c) + EgressSection(c) + PolicySection(pol, c)
            + LimitSection(level, c) + LoggingSection(level, pol, c) == BuiltinRules(c, pol, ipv6, level)
  {
    hide BaseChain, AfterChain, NotLocalChain, UserLimitRules, UserLoggingHead, AfterLoggingRules, BeforeLoggingRules;
    hide LogDenyRules, LogAllowRules, RejectRules, TrackRules, SkipRules, Concat, BeforeParts, Guarded;
    EgressEnds();
  }

  lemma StartHolds(base: Chains, pol: Policies, ipv6: bool, level: Level, start: Sets)
    requires Builtin(base, pol, ipv6, level)
    ensures Complete(base) && Holds(base, base, UserStart(level, start, 0))
    ensures UserStart(level, start, 0).sets == start && UserStart(level, start, 0).id == 0
  {
    hide BaseChain, BeforeChain, AfterChain, NotLocalChain, UserLimitRules, UserLoggingHead, AfterLoggingRules,
         BeforeLoggingRules;
    hide LogDenyRules, LogAllowRules, RejectRules, TrackRules, SkipRules, Guarded;
  }

  lemma BuiltinAt(m: Chains, pol: Policies, ipv6: bool, level: Level, h: Hook)
    requires Builtin(m, pol, ipv6, level)
    ensures Complete(m)
    ensures m[Base(h)] == BaseChain(h, ipv6) && m[Before(h)] == BeforeChain(h) && m[After(h)] == AfterChain(h)
    ensures m[RejectChain(h)] == RejectRules(pol.Get(h)) && m[Track(h)] == TrackRules(pol.Get(h))
    ensures m[SkipToPolicy(h)] == SkipRules(pol.Get(h)) && m[BeforeLogging(h)] == BeforeLoggingRules(level)
    ensures m[AfterLogging(h)] == AfterLoggingRules(level, pol.Get(h)) && m[NotLocal] == NotLocalChain()
    ensures m[UserEgress] == [] && m[LogDeny] == LogDenyRules(level) && m[LogAllow] == LogAllowRules(level)
    ensures m[UserLimit] == UserLimitRules(level) && m[UserLimitAccept] == [Guarded([], Accept)]
  {
    hide BaseChain, BeforeChain, AfterChain, NotLocalChain, UserLimitRules, UserLoggingHead, AfterLoggingRules,
         BeforeLoggingRules;
    hide LogDenyRules, LogAllowRules, RejectRules, TrackRules, SkipRules, Guarded, Policies.Get, BuiltinRules;
    BuiltinHookRules(pol, ipv6, level, h);
    BuiltinOtherRules(pol, ipv6, level);
  }

  lemma BuiltinHookRules(pol: Policies, ipv6: bool, level: Level, h: Hook)
    ensures BuiltinRules(Base(h), pol, ipv6, level) == BaseChain(h, ipv6)
            && BuiltinRules(Before(h), pol, ipv6, level) == BeforeChain(h)
    ensures BuiltinRules(After(h), pol, ipv6, level) == AfterChain(h)
    ensures BuiltinRules(RejectChain(h), pol, ipv6, level) == RejectRules(pol.Get(h))
    ensures BuiltinRules(Track(h), pol, ipv6, level) == TrackRules(pol.Get(h))
    ensures BuiltinRules(SkipToPolicy(h), pol, ipv6, level) == SkipRules(pol.Get(h))
    ensures BuiltinRules(BeforeLogging(h), pol, ipv6, level) == BeforeLoggingRules(level)
    ensures BuiltinRules(AfterLogging(h), pol, ipv6, level) == AfterLoggingRules(level, pol.Get(h))
  {
    hide BaseChain, BeforeChain, AfterChain, AfterLoggingRules, BeforeLoggingRules, RejectRules, TrackRules, SkipRules,
         Policies.Get, NotLocalChain, UserLimitRules, LogDenyRules, LogAllowRules, Guarded, UserLoggingHead;
  }

  lemma BuiltinOtherRules(pol: Policies, ipv6: bool, level: Level)
    ensures BuiltinRules(NotLocal, pol, ipv6, level) == NotLocalChain()
            && BuiltinRules(UserEgress, pol, ipv6, level) == []
    ensures BuiltinRules(LogDeny, pol, ipv6, level) == LogDenyRules(level)
    ensures BuiltinRules(LogAllow, pol, ipv6, level) == LogAllowRules(level)
    ensures BuiltinRules(UserLimit, pol, ipv6, level) == UserLimitRules(level)
    ensures BuiltinRules(UserLimitAccept, pol, ipv6, level) == [Guarded([], Accept)]
  {
    hide NotLocalChain, UserLimitRules, LogDenyRules, LogAllowRules, Guarded, BaseChain, BeforeChain, AfterChain,
         UserLoggingHead, AfterLoggingRules, BeforeLoggingRules, RejectRules, TrackRules, SkipRules, Policies.Get;
  }

  lemma MetersInStart(sets: Sets)
    requires AddressSetsOnly(sets)
    ensures MetersOnly(sets)
  {
  }

  lemma BansStay(sets: Sets, sets': Sets, st: State, now: int)
    requires BansLoaded(sets, st, now) && forall n :: n in sets && n.ThreatBans? ==> n in sets' && sets'[n] == sets[n]
    ensures BansLoaded(sets', st, now)
  {
    hide Encodes, ValidSources, LiveBans;
  }

  lemma SetKeysDiffer(name: string)
    ensures SetKey(name, false) != SetKey(name, true)
  {
    assert |SetKey(name, true)| == |name| + 1;
  }

  lemma NamedAdded(sets: Sets, sets': Sets, named: seq<IPSet>, s: IPSet)
    requires NamedLoaded(sets, named) && HalvesLoaded(sets', s)
    requires var name4, name6 := UserSet(SetKey(s.name, false)), UserSet(SetKey(s.name, true));
             name4 in sets' && name6 in sets' && sets' == sets[name4 := sets'[name4]][name6 := sets'[name6]]
    ensures NamedLoaded(sets', named + [s])
  {
    hide Encodes, ValidSources, SetKey;
    var all := named + [s];
    forall i | 0 <= i < |all| && Unshadowed(all, i) ensures HalvesLoaded(sets', all[i]) {
      if i < |named| {
        assert Unshadowed(named, i) by {
          forall j, v, w | i < j < |named| ensures SetKey(named[j].name, v) != SetKey(named[i].name, w) {
            assert named[j] == all[j] && named[i] == all[i];
          }
        }
        forall v, w ensures SetKey(s.name, v) != SetKey(named[i].name, w) {
          assert all[|named|] == s && all[i] == named[i];
        }
        assert HalvesLoaded(sets, named[i]);
      }
    }
  }

  lemma CompleteAt(st: State, pol: Policies, ipv6: bool, base: Chains, prog: Program, m: Chains, h: Hook)
    requires Builtin(base, pol, ipv6, st.logging) && Complete(base) && Holds(m, base, prog)
    ensures Complete(m)
    ensures m[User(h)] == prog.user.Get(h) && m[UserLogging(h)] == prog.log.Get(h)
    ensures m[Base(h)] == BaseChain(h, ipv6) && m[Before(h)] == BeforeChain(h) && m[After(h)] == AfterChain(h)
    ensures m[RejectChain(h)] == RejectRules(pol.Get(h)) && m[Track(h)] == TrackRules(pol.Get(h))
    ensures m[SkipToPolicy(h)] == SkipRules(pol.Get(h)) && m[BeforeLogging(h)] == BeforeLoggingRules(st.logging)
    ensures m[AfterLogging(h)] == AfterLoggingRules(st.logging, pol.Get(h)) && m[NotLocal] == NotLocalChain()
    ensures m[UserEgress] == [] && m[LogDeny] == LogDenyRules(st.logging) && m[LogAllow] == LogAllowRules(st.logging)
    ensures m[UserLimit] == UserLimitRules(st.logging) && m[UserLimitAccept] == [Guarded([], Accept)]
  {
    hide BaseChain, BeforeChain, AfterChain, NotLocalChain, UserLimitRules, UserLoggingHead, AfterLoggingRules,
         BeforeLoggingRules;
    hide LogDenyRules, LogAllowRules, RejectRules, TrackRules, SkipRules, Guarded, Builtin, Policies.Get, PerHook.Get;
    BuiltinAt(base, pol, ipv6, st.logging, h);
  }

  lemma CompleteChains(st: State, pol: Policies, ipv6: bool, base: Chains, prog: Program, m: Chains)
    requires Builtin(base, pol, ipv6, st.logging) && Complete(base) && Holds(m, base, prog)
    ensures ChainsLoaded(m, st, pol, ipv6, prog)
  {
    hide BaseChain, BeforeChain, AfterChain, NotLocalChain, UserLimitRules, AfterLoggingRules, BeforeLoggingRules;
    hide LogDenyRules, LogAllowRules, RejectRules, TrackRules, SkipRules, Guarded, Builtin, Policies.Get, PerHook.Get,
         Holds;
    forall h { CompleteAt(st, pol, ipv6, base, prog, m, h); }
    CompleteAt(st, pol, ipv6, base, prog, m, Input);
  }

  lemma CompleteLoads(st: State, pol: Policies, ipv6: bool, now: int, base: Chains, start: Sets, four: Program,
      prog: Program,
                      m: Chains)
    requires Builtin(base, pol, ipv6, st.logging) && Complete(base) && Holds(m, base, prog)
    requires AddressSetsOnly(start) && BansLoaded(start, st, now) && NamedLoaded(start, st.sets)
    requires CompileRules(UserStart(st.logging, start, 0), st.rules4, false, now) == Ok(four)
    requires CompileRules(four, st.rules6, true, now) == Ok(prog)
    ensures Loaded(m, prog.sets, st, pol, ipv6, now, prog)
  {
    hide CompileRules, BansLoaded, NamedLoaded, UserStart, AddressSetsOnly, Builtin, Complete, Holds, ChainsLoaded;
    CompleteChains(st, pol, ipv6, base, prog, m);
    assert CompileUser(st, now, start, 0) == Ok(prog);
  }


  // Every chain that is not a base chain, in declaration order.
  function Regular(): seq<Chain>
  {
    [BeforeLogging(Input), BeforeLogging(Output), BeforeLogging(ForwardHook), Before(Input), Before(Output),
      Before(ForwardHook),
     User(Input), User(Output), User(ForwardHook), After(Input), After(Output), After(ForwardHook),
     AfterLogging(Input), AfterLogging(Output), AfterLogging(ForwardHook), UserLogging(Input), UserLogging(Output),
     UserLogging(ForwardHook), RejectChain(Input), RejectChain(Output), RejectChain(ForwardHook), Track(Input),
         Track(Output),
     Track(ForwardHook), SkipToPolicy(Input), SkipToPolicy(Output), SkipToPolicy(ForwardHook),
     NotLocal, LogDeny, LogAllow, UserLimit, UserLimitAccept, UserEgress]
  }

  function Position(c: Chain): nat
  {
    match c
    case BeforeLogging(h) => HookIndex(h)
    case Before(h) => 3 + HookIndex(h)
    case User(h) => 6 + HookIndex(h)
    case After(h) => 9 + HookIndex(h)
    case AfterLogging(h) => 12 + HookIndex(h)
    case UserLogging(h) => 15 + HookIndex(h)
    case RejectChain(h) => 18 + HookIndex(h)
    case Track(h) => 21 + HookIndex(h)
    case SkipToPolicy(h) => 24 + HookIndex(h)
    case NotLocal => 27
    case LogDeny => 28
    case LogAllow => 29
    case UserLimit => 30
    case UserLimitAccept => 31
    case _ => 32
  }

  lemma AllRegular()
    ensures forall c: Chain :: c.Base? <==> c !in Regular()
  {
    forall c: Chain | !c.Base? ensures c in Regular() {
      assert Regular()[Position(c)] == c;
    }
  }

  lemma JumpToIs(c: Chain)
    ensures JumpTo(c) == [[Counter, Verdict(Jump(c))]]
  {
    assert [] + [Counter, Verdict(Jump(c))] == [Counter, Verdict(Jump(c))];
  }

  function HookIndex(h: Hook): nat
  {
    if h == Input then 0 else if h == Output then 1 else 2
  }

  function JumpParts(h: Hook): seq<seq<NftRule>>
  {
    [JumpTo(BeforeLogging(h)), JumpTo(Before(h)), JumpTo(User(h)), JumpTo(After(h)),
     JumpTo(AfterLogging(h)), JumpTo(RejectChain(h)), JumpTo(Track(h))]
  }

  lemma {:induction false} ConcatSnoc(parts: seq<seq<NftRule>>, x: seq<NftRule>)
    ensures Concat(parts + [x]) == Concat(parts) + x
  {
    if parts == [] {
      assert ([] + [x])[1..] == [];
    } else {
      assert (parts + [x])[1..] == parts[1..] + [x];
      ConcatSnoc(parts[1..], x);
    }
  }

  lemma ConcatCons(x: seq<NftRule>, parts: seq<seq<NftRule>>)
    ensures Concat([x] + parts) == x + Concat(parts)
  {
    assert ([x] + parts)[1..] == parts;
  }

  // Every packet is dropped at every hook.
  ghost predicate Closed(chains: Chains, policies: map<Hook, Decision>)
  {
    forall h, depth: nat, p: Packet, env: Env :: env.chains == chains ==>
      h in policies && Base(h) in chains && RunBase(h, policies[h], depth, p, env) == Some(Dropped)
  }

  lemma EmptyCloses(chains: Chains, policies: map<Hook, Decision>)
    requires forall h: Hook :: Base(h) in chains && chains[Base(h)] == [] && h in policies && policies[h] == Dropped
    ensures Closed(chains, policies)
  {
    forall h: Hook, depth: nat, p: Packet, env: Env | env.chains == chains
      ensures RunBase(h, policies[h], depth, p, env) == Some(Dropped)
    {
      PanicDropsAll(h, depth, p, env);
    }
  }

  // ---- the before chains under construction ----

  ghost function Grown(m: Chains, i: seq<seq<NftRule>>, o: seq<seq<NftRule>>, f: seq<seq<NftRule>>,
      n: seq<NftRule>): Chains
  {
    Plus(Plus(Plus(Plus(m, Before(Input), Concat(i)), Before(Output), Concat(o)), Before(ForwardHook), Concat(f)),
        NotLocal, n)
  }

  lemma GrownComplete(m: Chains)
    requires Complete(m)
    ensures forall i, o, f, n :: Complete(Grown(m, i, o, f, n))
  {
    hide Concat;
  }

  lemma GrowInput(m: Chains, i: seq<seq<NftRule>>, o: seq<seq<NftRule>>, f: seq<seq<NftRule>>, n: seq<NftRule>,
      x: seq<NftRule>)
    ensures Plus(Grown(m, i, o, f, n), Before(Input), x) == Grown(m, i + [x], o, f, n)
  {
    hide Concat, Plus;
    ConcatSnoc(i, x);
    var m1 := Plus(m, Before(Input), Concat(i));
    var m2 := Plus(m1, Before(Output), Concat(o));
    var m3 := Plus(m2, Before(ForwardHook), Concat(f));
    PlusSwap(m3, NotLocal, n, Before(Input), x);
    PlusSwap(m2, Before(ForwardHook), Concat(f), Before(Input), x);
    PlusSwap(m1, Before(Output), Concat(o), Before(Input), x);
    PlusPlus(m, Before(Input), Concat(i), x);
  }

  // Additions to different chains commute.
  lemma PlusSwap(m: Chains, c: Chain, x: seq<NftRule>, d: Chain, y: seq<NftRule>)
    requires c != d
    ensures Plus(Plus(m, c, x), d, y) == Plus(Plus(m, d, y), c, x)
  {
    var a, b := Plus(Plus(m, c, x), d, y), Plus(Plus(m, d, y), c, x);
    assert a[c] == b[c] && a[d] == b[d];
    assert a == b;
  }

  lemma GrowOutput(m: Chains, i: seq<seq<NftRule>>, o: seq<seq<NftRule>>, f: seq<seq<NftRule>>, n: seq<NftRule>,
      x: seq<NftRule>)
    ensures Plus(Grown(m, i, o, f, n), Before(Output), x) == Grown(m, i, o + [x], f, n)
  {
    hide Concat;
    ConcatSnoc(o, x);
    assert RulesIn(m, Before(Output)) + Concat(o) + x == RulesIn(m, Before(Output)) + (Concat(o) + x);
  }

  lemma GrowForward(m: Chains, i: seq<seq<NftRule>>, o: seq<seq<NftRule>>, f: seq<seq<NftRule>>, n: seq<NftRule>,
      x: seq<NftRule>)
    ensures Plus(Grown(m, i, o, f, n), Before(ForwardHook), x) == Grown(m, i, o, f + [x], n)
  {
    hide Concat;
    ConcatSnoc(f, x);
    assert RulesIn(m, Before(ForwardHook)) + Concat(f) + x == RulesIn(m, Before(ForwardHook)) + (Concat(f) + x);
  }

  lemma GrowNotLocal(m: Chains, i: seq<seq<NftRule>>, o: seq<seq<NftRule>>, f: seq<seq<NftRule>>, n: seq<NftRule>,
      x: seq<NftRule>)
    ensures Plus(Grown(m, i, o, f, n), NotLocal, x) == Grown(m, i, o, f, n + x)
  {
    hide Concat;
    assert RulesIn(m, NotLocal) + n + x == RulesIn(m, NotLocal) + (n + x);
  }

  function HEAD_INPUT(): seq<seq<NftRule>>
  {
    [LoRule(Iifname), Rh0Rule(), BanRules(), EstablishedRule(), GuardAll(IcmpAccepts(true, REPLY6), Accept),
      InvalidRules()]
  }

  function HEAD_OUTPUT(): seq<seq<NftRule>> { [LoRule(Oifname), Rh0Rule(), EstablishedRule()] }

  function HEAD_FORWARD(): seq<seq<NftRule>> { [Rh0Rule(), BanRules(), EstablishedRule()] }

  // ---- user chains under construction ----

  // The user and logging chains hold the program, the rest is untouched.
  ghost predicate Holds(m: Chains, base: Chains, s: Program)
    requires Complete(base)
  {
    && Complete(m)
    && (forall h :: m[User(h)] == s.user.Get(h) && m[UserLogging(h)] == s.log.Get(h))
    && forall c: Chain :: !c.User? && !c.UserLogging? ==> m[c] == base[c]
  }

  lemma HoldsAll(m: Chains, base: Chains, s: Program)
    requires Complete(base) && Holds(m, base, s)
    ensures Complete(m)
  {
  }

  lemma RuleAdded(base: Chains, s: Program, h: Hook, b: Block, m: Chains, m': Chains)
    requires Complete(base) && Holds(m, base, s) && m' == PlusRule(m, h, b.log, b.user)
    ensures Holds(m', base, AddBlock(s, h, b))
  {
    RuleAt(m, h, b.log, b.user);
    hide PlusRule;
    match h
    case Input =>
    case Output =>
    case ForwardHook =>
  }

  lemma RuleAt(m: Chains, h: Hook, log: seq<NftRule>, user: seq<NftRule>)
    requires Complete(m)
    ensures var m' := PlusRule(m, h, log, user);
            && Complete(m') && m'[User(h)] == m[User(h)] + user && m'[UserLogging(h)] == m[UserLogging(h)] + log
            && forall c: Chain :: c != User(h) && c != UserLogging(h) ==> m'[c] == m[c]
  {
  }

  lemma {:induction false} RuleFails(s: Program, rules: seq<Rule>, i: nat, v6: bool, now: int)
    requires i < |rules| && CompileRules(s, rules[..i + 1], v6, now).Err?
    ensures CompileRules(s, rules, v6, now).Err?
    decreases |rules|
  {
    hide RuleBlock;
    if i + 1 == |rules| {
      assert rules[..i + 1] == rules;
    } else {
      var init := rules[..|rules| - 1];
      assert init[..i + 1] == rules[..i + 1];
      RuleFails(s, init, i, v6, now);
    }
  }

  lemma {:induction false} VariantFails(r: Rule, qs: seq<Proto>, i: nat, v6: bool, id: nat)
    requires i < |qs| && VariantsBlock(r, qs[..i + 1], v6, id).Err?
    ensures VariantsBlock(r, qs, v6, id).Err?
    decreases |qs|
  {
    hide VariantBlock;
    if i + 1 == |qs| {
      assert qs[..i + 1] == qs;
    } else {
      var init := qs[..|qs| - 1];
      assert init[..i + 1] == qs[..i + 1];
      VariantFails(r, init, i, v6, id);
    }
  }

  lemma PlusRuleNothing(m: Chains, h: Hook)
    requires User(h) in m && UserLogging(h) in m
    ensures PlusRule(m, h, [], []) == m
  {
    PlusNothing(m, UserLogging(h));
    PlusNothing(m, User(h));
  }

  lemma PlusRuleKeeps(m: Chains, h: Hook, log: seq<NftRule>, user: seq<NftRule>)
    ensures User(h) in PlusRule(m, h, log, user) && UserLogging(h) in PlusRule(m, h, log, user)
  {
  }

  // Sets of a rule leave every meter as it was.
  lemma MetersStay(sets: Sets, more: Sets)
    requires MetersOnly(sets) && forall n :: n in more && n.Meter? ==> more[n] == METER_BODY
    ensures MetersOnly(sets + more)
  {
  }

  // ---- sequence bookkeeping ----

  lemma GuardNone(v: Verdict)
    ensures GuardAll([], v) == []
  {
  }

  lemma GuardSnoc(ms: seq<NftRule>, i: nat, v: Verdict)
    requires i < |ms|
    ensures GuardAll(ms[..i + 1], v) == GuardAll(ms[..i], v) + [Guarded(ms[i], v)]
  {
    hide Guarded;
  }

  lemma ElementsSnoc(ivs: seq<Interval>, iv: Interval)
    ensures ElementsOf(ivs + [iv]) == ElementsOf(ivs) + [Element(iv.start, false), Element(iv.end, true)]
  {
    assert (ivs + [iv])[..|ivs|] == ivs;
  }

  lemma PortSetIs(rs: seq<PortRange>, interval: bool)
    requires interval == AnyMulti(rs)
    ensures PortSet(rs) == SetBody(interval, if interval then ElementsOf(PortIntervals(rs)) else PortKeysOf(rs))
  {
  }

  lemma EightAssociate(a: NftRule, b: NftRule, c: NftRule, d: NftRule, e: NftRule, f: NftRule, g: NftRule, h: NftRule)
    ensures a + b + c + d + e + f + g + h == a + (b + (c + (d + (e + (f + (g + h))))))
  {
    assert a + b + c + d + e + f + g + h == a + b + c + d + e + f + (g + h);
    assert a + b + c + d + e + f + (g + h) == a + b + c + d + e + (f + (g + h));
    assert a + b + c + d + e + (f + (g + h)) == a + b + c + d + (e + (f + (g + h)));
    assert a + b + c + d + (e + (f + (g + h))) == a + b + c + (d + (e + (f + (g + h))));
    assert a + b + c + (d + (e + (f + (g + h)))) == a + b + (c + (d + (e + (f + (g + h)))));
  }

  lemma LimitAssociates(exprs: NftRule, ct: NftRule, loads: NftRule, dyn: Expr)
    ensures exprs + ct + loads + [dyn, Counter, Verdict(Jump(UserLimit))]
            == Guarded(exprs + (ct + (loads + [dyn])), Jump(UserLimit))
  {
  }

  lemma MatchSets(r: Rule, q: Proto, v6: bool, id: nat)
    requires RuleMatch(r, q, v6, id).Ok?
    ensures forall n :: n in RuleMatch(r, q, v6, id).value.sets ==> n.Anonymous?
  {
    if Portful(q) {
      PortMatchAnonymous(r.src.ports, true, q, id);
      PortMatchAnonymous(r.dst.ports, false, q, PortMatch(r.src.ports, true, q, id).id);
    }
  }
}
