/** Which log line a packet gets from the user rules, and what the logging
    chains of each level print. */
module UserLogs {
  import opened Bytes
  import opened AddressSets
  import opened Outcomes
  import opened Rules
  import opened Netfilter
  import opened Matching
  import opened RuleCompiler
  import opened BuiltinChains
  import opened Compiler
  import opened LogLines

  // ---- matches print nothing ----

  lemma QuietAppend(a: NftRule, b: NftRule)
    requires Quiet(a) && Quiet(b)
    ensures Quiet(a + b)
  {
  }

  lemma QuietMatch(r: Rule, q: Proto, v6: bool, id: nat)
    requires RuleMatch(r, q, v6, id).Ok?
    ensures Quiet(RuleMatch(r, q, v6, id).value.exprs)
  {
    hide EndpointMatch, BothPorts, IfaceExprs, ProtoExprs, IcmpExprs, NfprotoMatch;
    QuietEndpoint(r.src, true, v6);
    QuietEndpoint(r.dst, false, v6);
    QuietPorts(r, q, id);
    QuietFixed(r, q, v6);
  }

  lemma QuietEndpoint(a: AddrSpec, source: bool, v6: bool)
    ensures Quiet(EndpointMatch(a, source, v6))
  {
    hide CidrMask, Net.First, SetKey;
  }

  lemma QuietPorts(r: Rule, q: Proto, id: nat)
    ensures Quiet(BothPorts(r, q, id).exprs)
  {
    hide PortBytes, PortSet, Applicable;
  }

  lemma QuietFixed(r: Rule, q: Proto, v6: bool)
    ensures Quiet(NfprotoMatch(v6)) && Quiet(ProtoExprs(q)) && Quiet(IcmpExprs(r.icmpType))
    ensures Quiet(IfaceExprs(Iifname, r.ifaceIn)) && Quiet(IfaceExprs(Oifname, r.ifaceOut))
  {
    hide WildcardMask, PadName;
  }

  lemma QuietCt(bits: byte)
    ensures Quiet(CtMatch(bits))
  {
  }

  lemma QuietMeter(r: Rule, q: Proto, v6: bool, exprs: NftRule)
    requires Quiet(exprs)
    ensures Quiet(LimitMatch(r, q, v6, exprs))
  {
    hide SetKey;
  }

  // ---- the logging chain of the user rules ----

  // The line of a rule names what the rule does.
  function LineOf(a: Action): string
  {
    match a
    case Allow => "[BFW ALLOW] "
    case Deny => "[BFW BLOCK] "
    case Reject => "[BFW BLOCK] "
    case Limit => "[BFW LIMIT] "
    case OtherAction(_) => "[BFW BLOCK] "
  }

  // A rule that logs new connections is silent about every other packet.
  predicate Speaks(r: Rule, p: Packet) { r.log == LogAll || (r.log == LogNew && p.ct == New) }

  lemma VariantLog(r: Rule, q: Proto, v6: bool, id: nat, rate: bool, depth: nat, p: Packet, env: Env)
    requires p.Valid() && Compilable(r) && VariantBlock(r, q, v6, id).Ok? && Steady(env, rate)
    requires SetsLoaded(RuleMatch(r, q, v6, id).value.sets, env)
    ensures var speaks := p.v6 == v6 && VariantHolds(r, q, p, env) && Speaks(r, p);
            Prints(VariantBlock(r, q, v6, id).value.log, if speaks && rate then [LineOf(r.action)] else [],
                   if speaks then Back else Falls, depth, p, env)
  {
    hide RuleMatch, ActionRules, VariantHolds, Tests, Prints, CtMatch, Quiet, Steady, MeterSets;
    var exprs := RuleMatch(r, q, v6, id).value.exprs;
    var cond := p.v6 == v6 && VariantHolds(r, q, p, env);
    RuleMatchTests(r, q, v6, id, p, env);
    QuietMatch(r, q, v6, id);
    LogsPrint(r, exprs, cond, rate, depth, p, env);
    assert VariantBlock(r, q, v6, id).value.log == LogRules(r, exprs);
  }

  lemma LogsPrint(r: Rule, exprs: NftRule, cond: bool, rate: bool, depth: nat, p: Packet, env: Env)
    requires Tests(exprs, cond, p, env) && Quiet(exprs) && Steady(env, rate)
    ensures var speaks := cond && Speaks(r, p);
            Prints(LogRules(r, exprs), if speaks && rate then [LineOf(r.action)] else [],
                   if speaks then Back else Falls, depth, p, env)
  {
    hide Tests, Prints, CtMatch, Quiet, Steady, And8;
    if r.log == LogNone {
      PrintsNothing(depth, p, env);
    } else {
      var logged, speaks := LoggedExprs(r, exprs), cond && Speaks(r, p);
      CtTests(8, p, env);
      CtStates(p.ct);
      QuietCt(8);
      QuietAppend(exprs, CtMatch(8));
      TestsAppend(exprs, cond, CtMatch(8), p.ct == New, p, env);
      var line, back := logged + TailExprs([LIMIT3], Line(LogPrefixOf(r.action))),
          logged + TailExprs([], Tail.Verdict(Return));
      RulePrints(logged, speaks, [LIMIT3], Line(LogPrefixOf(r.action)), [], Falls, rate, depth, p, env);
      RulePrints(logged, speaks, [], Tail.Verdict(Return), [], Falls, rate, depth, p, env);
      assert [LIMIT3] + [LogPrefix(LogPrefixOf(r.action))] == [LIMIT3, LogPrefix(LogPrefixOf(r.action))];
      assert [] + [Counter, Expr.Verdict(Return)] == [Counter, Expr.Verdict(Return)];
      var lines := if speaks && rate then [LineOf(r.action)] else [];
      PrintsAppend([line], lines, Falls, [back], [], if speaks then Back else Falls, depth, p, env);
      assert lines + [] == lines && LogRules(r, exprs) == [line] + [back];
    }
  }

  // Some variant of the rule takes the packet and the rule speaks.
  ghost predicate SpeaksUp(r: Rule, qs: seq<Proto>, v6: bool, p: Packet, env: Env)
    requires r.Valid() && p.Valid()
  {
    p.v6 == v6 && Speaks(r, p) && exists q :: q in qs && VariantHolds(r, q, p, env)
  }

  lemma {:induction false} VariantsLog(r: Rule, qs: seq<Proto>, v6: bool, id: nat, rate: bool, depth: nat, p: Packet,
      env: Env)
    requires p.Valid() && Compilable(r) && Steady(env, rate)
    requires VariantsBlock(r, qs, v6, id).Ok? && SetsLoaded(VariantsBlock(r, qs, v6, id).value.sets, env)
    ensures var up := SpeaksUp(r, qs, v6, p, env);
            Prints(VariantsBlock(r, qs, v6, id).value.log, if up && rate then [LineOf(r.action)] else [],
                   if up then Back else Falls, depth, p, env)
  {
    hide Prints, VariantBlock, VariantHolds, Speaks, Steady, LineOf;
    if qs == [] {
      PrintsNothing(depth, p, env);
    } else {
      var prior, q := qs[..|qs| - 1], qs[|qs| - 1];
      assert qs == prior + [q];
      var init := VariantsBlock(r, prior, v6, id).value;
      var last := VariantBlock(r, q, v6, init.id).value;
      VariantsSetsOnly(r, prior, v6, id);
      VariantSets(r, q, v6, init.id);
      LoadedParts(r, q, v6, init.id, init.sets, id, env);
      VariantsLog(r, prior, v6, id, rate, depth, p, env);
      VariantLog(r, q, v6, init.id, rate, depth, p, env);
      var up, here := SpeaksUp(r, prior, v6, p, env), p.v6 == v6 && VariantHolds(r, q, p, env) && Speaks(r, p);
      var a, b := if up && rate then [LineOf(r.action)] else [], if here && rate then [LineOf(r.action)] else [];
      PrintsAppend(init.log, a, if up then Back else Falls, last.log, b, if here then Back else Falls, depth, p, env);
      assert [] + b == b;
      SpeaksSnoc(r, prior, q, v6, p, env);
    }
  }

  lemma SpeaksSnoc(r: Rule, qs: seq<Proto>, q: Proto, v6: bool, p: Packet, env: Env)
    requires r.Valid() && p.Valid()
    ensures SpeaksUp(r, qs + [q], v6, p, env) <==>
            SpeaksUp(r, qs, v6, p, env) || (p.v6 == v6 && VariantHolds(r, q, p, env) && Speaks(r, p))
  {
    hide VariantHolds, Speaks;
  }

  // The rule takes the packet of its hook.
  ghost predicate Hits(r: Rule, h: Hook, now: int, p: Packet, env: Env)
    requires r.Valid() && p.Valid()
  {
    r.Active(now) && HookOf(r.direction) == h && CompiledHolds(r, p, env)
  }

  // The first rule of the list that takes the packet and speaks about it.
  ghost function FirstSpeaker(rules: seq<Rule>, h: Hook, now: int, p: Packet, env: Env): Option<Rule>
    requires p.Valid() && forall r :: r in rules ==> r.Valid()
  {
    if rules == [] then None
    else
      var init, r := FirstSpeaker(rules[..|rules| - 1], h, now, p, env), rules[|rules| - 1];
      if init.Some? then init else if Hits(r, h, now, p, env) && Speaks(r, p) then Some(r) else None
  }

  function LineFrom(r: Option<Rule>, rate: bool): seq<string>
  {
    if r.Some? && rate then [LineOf(r.value.action)] else []
  }

  lemma RuleLog(r: Rule, v6: bool, now: int, id: nat, h: Hook, rate: bool, depth: nat, p: Packet, env: Env)
    requires p.Valid() && Compilable(r) && Steady(env, rate)
    requires RuleBlock(r, v6, now, id).Ok? && SetsLoaded(RuleBlock(r, v6, now, id).value.sets, env)
    ensures var up := p.v6 == v6 && Hits(r, h, now, p, env) && Speaks(r, p);
            Prints(if HookOf(r.direction) == h then RuleBlock(r, v6, now, id).value.log else [],
                   if up && rate then [LineOf(r.action)] else [], if up then Back else Falls, depth, p, env)
  {
    hide Prints, VariantsBlock, Variants, Steady, Speaks, LineOf, VariantHolds;
    PrintsNothing(depth, p, env);
    if r.Active(now) && HookOf(r.direction) == h {
      VariantsLog(r, Variants(r), v6, id, rate, depth, p, env);
    }
  }

  // The logging chain prints the line of the first rule that speaks.
  lemma {:induction false} RulesLog(s: Program, rules: seq<Rule>, v6: bool, now: int, h: Hook, prior: Option<Rule>,
      rate: bool, depth: nat, p: Packet, env: Env)
    requires p.Valid() && AllCompilable(rules) && Steady(env, rate)
    requires IdsBelow(s.sets, s.id) && CompileRules(s, rules, v6, now).Ok?
    requires SetsLoaded(CompileRules(s, rules, v6, now).value.sets, env)
    requires Prints(s.log.Get(h), LineFrom(prior, rate), if prior.Some? then Back else Falls, depth, p, env)
    ensures var r := if prior.Some? || p.v6 != v6 then prior else FirstSpeaker(rules, h, now, p, env);
            Prints(CompileRules(s, rules, v6, now).value.log.Get(h), LineFrom(r, rate),
                   if r.Some? then Back else Falls, depth, p, env)
  {
    hide Prints, RuleBlock, Hits, Speaks, Steady, LineOf, IfacePattern, Rule.Valid, PerHook.Add;
    if rules != [] {
      var before, r := rules[..|rules| - 1], rules[|rules| - 1];
      assert r in rules && forall x :: x in before ==> x in rules;
      var init := CompileRules(s, before, v6, now).value;
      var b := RuleBlock(r, v6, now, init.id).value;
      CompiledSets(s, before, v6, now);
      RuleBlockSets(r, v6, now, init.id);
      SetsGrow(init.sets, init.id, b.sets, b.id);
      LoadedBoth(init.sets, b.sets, env);
      RulesLog(s, before, v6, now, h, prior, rate, depth, p, env);
      RuleLog(r, v6, now, init.id, h, rate, depth, p, env);
      var x := if prior.Some? || p.v6 != v6 then prior else FirstSpeaker(before, h, now, p, env);
      var up := p.v6 == v6 && Hits(r, h, now, p, env) && Speaks(r, p);
      var mine := if up && rate then [LineOf(r.action)] else [];
      PrintsAppend(init.log.Get(h), LineFrom(x, rate), if x.Some? then Back else Falls,
                   if HookOf(r.direction) == h then b.log else [], mine, if up then Back else Falls, depth, p, env);
      assert [] + mine == mine;
      LogAdded(init, HookOf(r.direction), b, h);
    }
  }

  lemma LogAdded(s: Program, at: Hook, b: Block, h: Hook)
    ensures AddBlock(s, at, b).log.Get(h) == s.log.Get(h) + if at == h then b.log else []
  {
  }

  // ---- the user chain ----

  // What the user chain's targets print: lines is what the logging chain of
  // the hook prints for this packet, over what the limit chain prints.
  ghost predicate TargetsPrint(h: Hook, lines: seq<string>, end: End, over: seq<string>, depth: nat, p: Packet,
      env: Env)
  {
    && UserLogging(h) in env.chains && UserLimit in env.chains && UserLimitAccept in env.chains
    && end != Done && Prints(env.chains[UserLogging(h)], lines, end, depth, p, env)
    && Prints(env.chains[UserLimit], over, Done, depth, p, env)
    && Prints(env.chains[UserLimitAccept], [], Done, depth, p, env)
  }

  // A rule that takes the packet prints what the logging chain does if it
  // logs, and the limit chain's line when it rejects.
  ghost function TakenLines(r: Rule, exceeded: bool, lines: seq<string>, over: seq<string>): seq<string>
  {
    (if r.log != LogNone then lines else []) + if r.action == Limit && exceeded then over else []
  }

  lemma VerdictPrints(exprs: NftRule, cond: bool, v: Verdict, lines: seq<string>, target: End, rate: bool, depth: nat,
      p: Packet, env: Env)
    requires Tests(exprs, cond, p, env) && Quiet(exprs) && Steady(env, rate)
    requires v.Jump? ==>
               v.target in env.chains && depth > 0 && Prints(env.chains[v.target], lines, target, depth - 1, p, env)
    ensures Prints([Guarded(exprs, v)], if cond && v.Jump? then lines else [],
                   if cond then EndOf(v, target) else Falls, depth, p, env)
  {
    hide Tests, Prints, Quiet, Steady;
    assert [] + [Counter, Expr.Verdict(v)] == [Counter, Expr.Verdict(v)];
    RulePrints(exprs, cond, [], Tail.Verdict(v), lines, target, rate, depth, p, env);
    assert Guarded(exprs, v) == exprs + TailExprs([], Tail.Verdict(v));
  }

  lemma ActionPrints(r: Rule, q: Proto, exprs: NftRule, cond: bool, h: Hook, lines: seq<string>, end: End,
      over: seq<string>, rate: bool, depth: nat, p: Packet, env: Env)
    requires p.Valid() && depth > 0 && TargetsPrint(h, lines, end, over, depth - 1, p, env) && Steady(env, rate)
    requires Tests(exprs, cond, p, env) && Quiet(exprs) && ActionRules(r, q, p.v6, exprs).Ok?
    requires SetsLoaded(MeterSets(r, p.v6), env)
    ensures Prints(ActionRules(r, q, p.v6, exprs).value,
                   if cond && r.action == Limit && OverLimit(r, q, p, env) then over else [],
                   if cond then Done else Falls, depth, p, env)
  {
    hide Tests, Prints, Quiet, Steady, LimitMatch, OverLimit, MeterKey;
    match r.action
    case Allow => VerdictPrints(exprs, cond, Accept, [], Falls, rate, depth, p, env);
    case Deny => VerdictPrints(exprs, cond, Drop, [], Falls, rate, depth, p, env);
    case Reject => VerdictPrints(exprs, cond, RejectWith, [], Falls, rate, depth, p, env);
    case Limit => LimitPrints(r, q, exprs, cond, h, lines, end, over, rate, depth, p, env);
  }

  lemma LimitPrints(r: Rule, q: Proto, exprs: NftRule, cond: bool, h: Hook, lines: seq<string>, end: End,
      over: seq<string>, rate: bool, depth: nat, p: Packet, env: Env)
    requires p.Valid() && depth > 0 && TargetsPrint(h, lines, end, over, depth - 1, p, env) && Steady(env, rate)
    requires Tests(exprs, cond, p, env) && Quiet(exprs) && Meter(MeterKey(r, p.v6)) in env.sets
    ensures Prints([Guarded(LimitMatch(r, q, p.v6, exprs), Jump(UserLimit)), Guarded(exprs, Jump(UserLimitAccept))],
                   if cond && OverLimit(r, q, p, env) then over else [], if cond then Done else Falls, depth, p, env)
  {
    hide Tests, Prints, Quiet, Steady, LimitMatch, OverLimit, MeterKey;
    var m := LimitMatch(r, q, p.v6, exprs);
    var exceeded := cond && OverLimit(r, q, p, env);
    LimitTests(r, q, exprs, cond, p, env);
    QuietMeter(r, q, p.v6, exprs);
    VerdictPrints(m, exceeded, Jump(UserLimit), over, Done, rate, depth, p, env);
    VerdictPrints(exprs, cond, Jump(UserLimitAccept), [], Done, rate, depth, p, env);
    var a, b := [Guarded(m, Jump(UserLimit))], [Guarded(exprs, Jump(UserLimitAccept))];
    var none: seq<string> := [];
    assert none + none == none;
    PrintsAppend(a, if exceeded then over else [], if exceeded then Done else Falls, b, [],
                 if cond then Done else Falls, depth, p, env);
    assert a + b == [Guarded(m, Jump(UserLimit)), Guarded(exprs, Jump(UserLimitAccept))];
  }

  lemma VariantPrints(r: Rule, q: Proto, v6: bool, id: nat, lines: seq<string>, end: End, over: seq<string>, rate: bool,
      depth: nat, p: Packet, env: Env)
    requires p.Valid() && Compilable(r) && VariantBlock(r, q, v6, id).Ok? && Steady(env, rate) && depth > 0
    requires TargetsPrint(HookOf(r.direction), lines, end, over, depth - 1, p, env)
    requires SetsLoaded(RuleMatch(r, q, v6, id).value.sets, env) && SetsLoaded(MeterSets(r, v6), env)
    ensures var cond := p.v6 == v6 && VariantHolds(r, q, p, env);
            Prints(VariantBlock(r, q, v6, id).value.user,
                   if cond then TakenLines(r, OverLimit(r, q, p, env), lines, over) else [],
                   if cond then Done else Falls, depth, p, env)
  {
    hide RuleMatch, VariantHolds, Tests, Prints, Quiet, Steady, MeterSets, OverLimit, ActionRules, SetsLoaded;
    var exprs := RuleMatch(r, q, v6, id).value.exprs;
    var cond := p.v6 == v6 && VariantHolds(r, q, p, env);
    var h := HookOf(r.direction);
    RuleMatchTests(r, q, v6, id, p, env);
    QuietMatch(r, q, v6, id);
    if p.v6 == v6 {
      ActionPrints(r, q, exprs, cond, h, lines, end, over, rate, depth, p, env);
    } else {
      OtherFamily(r, q, v6, exprs, h, lines, end, over, rate, depth, p, env);
    }
    var jump := LogJump(r, exprs);
    var logged := if cond && r.log != LogNone then lines else [];
    if r.log == LogNone {
      PrintsNothing(depth, p, env);
    } else {
      VerdictPrints(exprs, cond, Jump(UserLogging(h)), lines, end, rate, depth, p, env);
    }
    var acted := if cond && r.action == Limit && OverLimit(r, q, p, env) then over else [];
    PrintsAppend(jump, logged, Falls, ActionRules(r, q, v6, exprs).value, acted, if cond then Done else Falls, depth, p,
                 env);
    var none: seq<string> := [];
    assert none + none == none && logged + none == logged;
  }

  // Packets of the other family meet no rule.
  lemma OtherFamily(r: Rule, q: Proto, v6: bool, exprs: NftRule, h: Hook, lines: seq<string>, end: End,
      over: seq<string>, rate: bool, depth: nat, p: Packet, env: Env)
    requires p.v6 != v6 && Tests(exprs, false, p, env) && Quiet(exprs) && ActionRules(r, q, v6, exprs).Ok?
    requires Steady(env, rate) && depth > 0 && TargetsPrint(h, lines, end, over, depth - 1, p, env)
    ensures Prints(ActionRules(r, q, v6, exprs).value, [], Falls, depth, p, env)
  {
    hide Tests, Prints, Quiet, Steady, CtMatch, MeterLoads;
    match r.action
    case Allow => VerdictPrints(exprs, false, Accept, [], Falls, rate, depth, p, env);
    case Deny => VerdictPrints(exprs, false, Drop, [], Falls, rate, depth, p, env);
    case Reject => VerdictPrints(exprs, false, RejectWith, [], Falls, rate, depth, p, env);
    case Limit =>
      var m := LimitMatch(r, q, v6, exprs);
      var more := CtMatch(8) + (MeterLoads(q, v6) + [Dynset(if v6 then 1 else 8, Meter(MeterKey(r, v6)))]);
      TestsAppend(exprs, false, more, true, p, env);
      assert m == exprs + more;
      QuietMeter(r, q, v6, exprs);
      VerdictPrints(m, false, Jump(UserLimit), over, Done, rate, depth, p, env);
      VerdictPrints(exprs, false, Jump(UserLimitAccept), [], Done, rate, depth, p, env);
      var a, b := [Guarded(m, Jump(UserLimit))], [Guarded(exprs, Jump(UserLimitAccept))];
      PrintsAppend(a, [], Falls, b, [], Falls, depth, p, env);
      assert a + b == ActionRules(r, q, v6, exprs).value;
      var none: seq<string> := [];
      assert none + none == none;
  }

  // The meter of the rule rejects the packet.
  ghost predicate Exceeded(r: Rule, p: Packet, env: Env)
  {
    p.ct == New && (MeterKeyed(r) ==> p.Dport().Some?) && env.over(Meter(MeterKey(r, p.v6)))
  }

  lemma {:induction false} VariantsPrint(r: Rule, qs: seq<Proto>, v6: bool, id: nat, lines: seq<string>, end: End,
      over: seq<string>, rate: bool, depth: nat, p: Packet, env: Env)
    requires p.Valid() && Compilable(r) && Steady(env, rate) && depth > 0
    requires TargetsPrint(HookOf(r.direction), lines, end, over, depth - 1, p, env)
    requires VariantsBlock(r, qs, v6, id).Ok? && SetsLoaded(VariantsBlock(r, qs, v6, id).value.sets, env)
    requires forall q :: q in qs ==> q in Variants(r)
    ensures var cond := p.v6 == v6 && exists q :: q in qs && VariantHolds(r, q, p, env);
            Prints(VariantsBlock(r, qs, v6, id).value.user,
                   if cond then TakenLines(r, Exceeded(r, p, env), lines, over) else [],
                   if cond then Done else Falls, depth, p, env)
  {
    hide Prints, VariantBlock, VariantHolds, Steady, TargetsPrint, TakenLines, Variants, MeterKeyed;
    if qs == [] {
      PrintsNothing(depth, p, env);
    } else {
      var prior, q := qs[..|qs| - 1], qs[|qs| - 1];
      assert qs == prior + [q];
      var init := VariantsBlock(r, prior, v6, id).value;
      var last := VariantBlock(r, q, v6, init.id).value;
      VariantsSetsOnly(r, prior, v6, id);
      VariantSets(r, q, v6, init.id);
      LoadedParts(r, q, v6, init.id, init.sets, id, env);
      VariantsPrint(r, prior, v6, id, lines, end, over, rate, depth, p, env);
      VariantPrints(r, q, v6, init.id, lines, end, over, rate, depth, p, env);
      VariantKeyed(r, q);
      assert OverLimit(r, q, p, env) == Exceeded(r, p, env);
      var was, here := p.v6 == v6 && exists x :: x in prior && VariantHolds(r, x, p, env),
          p.v6 == v6 && VariantHolds(r, q, p, env);
      var a, b := if was then TakenLines(r, Exceeded(r, p, env), lines, over) else [],
          if here then TakenLines(r, Exceeded(r, p, env), lines, over) else [];
      PrintsAppend(init.user, a, if was then Done else Falls, last.user, b, if here then Done else Falls, depth, p,
                   env);
      assert [] + b == b;
    }
  }

  // The first rule that takes the packet.
  ghost function FirstHit(rules: seq<Rule>, h: Hook, now: int, p: Packet, env: Env): Option<Rule>
    requires p.Valid() && forall r :: r in rules ==> r.Valid()
  {
    if rules == [] then None
    else
      var init, r := FirstHit(rules[..|rules| - 1], h, now, p, env), rules[|rules| - 1];
      if init.Some? then init else if Hits(r, h, now, p, env) then Some(r) else None
  }

  ghost function HitLines(r: Option<Rule>, lines: seq<string>, over: seq<string>, p: Packet, env: Env): seq<string>
  {
    if r.None? then [] else TakenLines(r.value, Exceeded(r.value, p, env), lines, over)
  }

  lemma RulePrintsAll(r: Rule, v6: bool, now: int, id: nat, h: Hook, lines: seq<string>, end: End, over: seq<string>,
      rate: bool, depth: nat, p: Packet, env: Env)
    requires p.Valid() && Compilable(r) && Steady(env, rate) && depth > 0
    requires TargetsPrint(h, lines, end, over, depth - 1, p, env)
    requires RuleBlock(r, v6, now, id).Ok? && SetsLoaded(RuleBlock(r, v6, now, id).value.sets, env)
    ensures var hit := p.v6 == v6 && Hits(r, h, now, p, env);
            Prints(if HookOf(r.direction) == h then RuleBlock(r, v6, now, id).value.user else [],
                   if hit then TakenLines(r, Exceeded(r, p, env), lines, over) else [],
                   if hit then Done else Falls, depth, p, env)
  {
    hide Prints, VariantsBlock, Variants, Steady, VariantHolds, TakenLines, Exceeded, TargetsPrint;
    PrintsNothing(depth, p, env);
    if r.Active(now) && HookOf(r.direction) == h {
      VariantsPrint(r, Variants(r), v6, id, lines, end, over, rate, depth, p, env);
    }
  }

  lemma {:induction false} RulesPrint(s: Program, rules: seq<Rule>, v6: bool, now: int, h: Hook, prior: Option<Rule>,
      lines: seq<string>, end: End, over: seq<string>, rate: bool, depth: nat, p: Packet, env: Env)
    requires p.Valid() && AllCompilable(rules) && Steady(env, rate) && depth > 0
    requires TargetsPrint(h, lines, end, over, depth - 1, p, env)
    requires IdsBelow(s.sets, s.id) && CompileRules(s, rules, v6, now).Ok?
    requires SetsLoaded(CompileRules(s, rules, v6, now).value.sets, env)
    requires Prints(s.user.Get(h), HitLines(prior, lines, over, p, env), if prior.Some? then Done else Falls, depth, p,
                    env)
    ensures var r := if prior.Some? || p.v6 != v6 then prior else FirstHit(rules, h, now, p, env);
            Prints(CompileRules(s, rules, v6, now).value.user.Get(h), HitLines(r, lines, over, p, env),
                   if r.Some? then Done else Falls, depth, p, env)
  {
    hide Prints, RuleBlock, Hits, TakenLines, Exceeded, TargetsPrint, Steady, IfacePattern, Rule.Valid, PerHook.Add;
    if rules != [] {
      var before, r := rules[..|rules| - 1], rules[|rules| - 1];
      assert r in rules && forall x :: x in before ==> x in rules;
      var init := CompileRules(s, before, v6, now).value;
      var b := RuleBlock(r, v6, now, init.id).value;
      CompiledSets(s, before, v6, now);
      RuleBlockSets(r, v6, now, init.id);
      SetsGrow(init.sets, init.id, b.sets, b.id);
      LoadedBoth(init.sets, b.sets, env);
      RulesPrint(s, before, v6, now, h, prior, lines, end, over, rate, depth, p, env);
      RulePrintsAll(r, v6, now, init.id, h, lines, end, over, rate, depth, p, env);
      var x := if prior.Some? || p.v6 != v6 then prior else FirstHit(before, h, now, p, env);
      var hit := p.v6 == v6 && Hits(r, h, now, p, env);
      var mine := if hit then TakenLines(r, Exceeded(r, p, env), lines, over) else [];
      PrintsAppend(init.user.Get(h), HitLines(x, lines, over, p, env), if x.Some? then Done else Falls,
                   if HookOf(r.direction) == h then b.user else [], mine, if hit then Done else Falls, depth, p, env);
      assert [] + mine == mine;
      AddedTo(init, HookOf(r.direction), b, h);
    }
  }

  // ---- the logging chains of each level ----

  // Levels low and medium go through a rate limit, high and full do not.
  predicate Passes(level: Level, rate: bool) { rate || level == High || level == Full }

  lemma LinePrints(exprs: NftRule, cond: bool, limits: NftRule, prefix: string, rate: bool, depth: nat, p: Packet,
      env: Env)
    requires Tests(exprs, cond, p, env) && Quiet(exprs) && RateLimits(limits) && Steady(env, rate)
    ensures Prints([exprs + limits + [LogPrefix(prefix)]], if cond && (limits == [] || rate) then [prefix] else [],
                   Falls, depth, p, env)
  {
    hide Tests, Prints, Quiet, Steady;
    RulePrints(exprs, cond, limits, Line(prefix), [], Falls, rate, depth, p, env);
    assert exprs + TailExprs(limits, Line(prefix)) == exprs + limits + [LogPrefix(prefix)];
  }

  lemma LimitedPrints(level: Level, prefix: string, rate: bool, depth: nat, p: Packet, env: Env)
    requires Steady(env, rate)
    ensures Prints([Limited(level) + [LogPrefix(prefix)]], if Passes(level, rate) then [prefix] else [], Falls, depth,
                   p, env)
  {
    hide Prints, Tests, Steady;
    TestsNothing(p, env);
    LinePrints([], true, Limited(level), prefix, rate, depth, p, env);
    assert [] + Limited(level) + [LogPrefix(prefix)] == Limited(level) + [LogPrefix(prefix)];
  }

  // Behind the user rules: what is about to be refused by the policy, and
  // from medium on what is about to be let through.
  lemma AfterLoggingPrints(level: Level, pol: Policy, rate: bool, depth: nat, p: Packet, env: Env)
    requires Steady(env, rate)
    ensures Prints(AfterLoggingRules(level, pol),
                   if level == Off || !Passes(level, rate) then []
                   else if pol == DenyPolicy || pol == RejectPolicy then ["[BFW BLOCK] "]
                   else if level == Low then [] else ["[BFW ALLOW] "], Falls, depth, p, env)
  {
    hide Prints, Limited, Steady;
    PrintsNothing(depth, p, env);
    LimitedPrints(level, "[BFW BLOCK] ", rate, depth, p, env);
    LimitedPrints(level, "[BFW ALLOW] ", rate, depth, p, env);
  }

  lemma {:induction false} LogAllowPrints(level: Level, rate: bool, depth: nat, p: Packet, env: Env)
    requires Steady(env, rate)
    ensures Prints(LogAllowRules(level), if level != Off && Passes(level, rate) then ["[BFW ALLOW] "] else [], Falls,
                   depth, p, env)
  {
    hide Prints, Limited, Steady;
    PrintsNothing(depth, p, env);
    LimitedPrints(level, "[BFW ALLOW] ", rate, depth, p, env);
  }

  // Before all other chains: from medium on an audit of new connections,
  // from high on of every packet.
  lemma BeforeLoggingPrints(level: Level, rate: bool, depth: nat, p: Packet, env: Env)
    requires Steady(env, rate)
    ensures Prints(BeforeLoggingRules(level),
                   match level
                   case Off => []
                   case Low => []
                   case Medium => if p.ct == New && rate then ["[BFW AUDIT] "] else []
                   case High => if rate then ["[BFW AUDIT] "] else []
                   case _ => ["[BFW AUDIT] "], Falls, depth, p, env)
  {
    hide Prints, Steady, CtMatch, Tests, And8;
    PrintsNothing(depth, p, env);
    TestsNothing(p, env);
    CtTests(8, p, env);
    CtStates(p.ct);
    QuietCt(8);
    var audit := "[BFW AUDIT] ";
    LinePrints(CtMatch(8), p.ct == New, [LIMIT3], audit, rate, depth, p, env);
    LinePrints([], true, [LIMIT3], audit, rate, depth, p, env);
    LinePrints([], true, [], audit, rate, depth, p, env);
    assert [] + [LIMIT3] + [LogPrefix(audit)] == [LIMIT3, LogPrefix(audit)];
    assert [] + [] + [LogPrefix(audit)] == [LogPrefix(audit)];
  }

  // Invalid packets: no line at low, an audit line and the block line from
  // medium on. All others: the block line.
  lemma {:induction false} LogDenyPrints(level: Level, rate: bool, depth: nat, p: Packet, env: Env)
    requires Steady(env, rate)
    ensures var lines :=
              if level == Off || !Passes(level, rate) then []
              else if p.ct != Invalid then ["[BFW BLOCK] "]
              else if level == Low then [] else ["[BFW AUDIT INVALID] ", "[BFW BLOCK] "];
            Prints(LogDenyRules(level), lines, if level == Low && p.ct == Invalid && rate then Back else Falls,
                   depth, p, env)
  {
    hide Prints, Steady, CtMatch, Tests, And8;
    PrintsNothing(depth, p, env);
    if level != Off {
      CtTests(1, p, env);
      CtStates(p.ct);
      QuietCt(1);
      var none: seq<string> := [];
      var pass := Passes(level, rate);
      var block := Limited(level) + [LogPrefix("[BFW BLOCK] ")];
      var blocked := if pass then ["[BFW BLOCK] "] else [];
      LimitedPrints(level, "[BFW BLOCK] ", rate, depth, p, env);
      if level == Low {
        var back := CtMatch(1) + Limited(level) + [Counter, Expr.Verdict(Return)];
        RulePrints(CtMatch(1), p.ct == Invalid, [LIMIT3], Tail.Verdict(Return), [], Falls, rate, depth, p, env);
        assert back == CtMatch(1) + TailExprs([LIMIT3], Tail.Verdict(Return));
        PrintsAppend([back], [], if p.ct == Invalid && rate then Back else Falls, [block], blocked, Falls, depth, p,
                     env);
        assert [back] + [block] == LogDenyRules(level) && none + blocked == blocked;
      } else {
        var audit := CtMatch(1) + Limited(level) + [LogPrefix("[BFW AUDIT INVALID] ")];
        LinePrints(CtMatch(1), p.ct == Invalid, Limited(level), "[BFW AUDIT INVALID] ", rate, depth, p, env);
        var audited := if p.ct == Invalid && pass then ["[BFW AUDIT INVALID] "] else [];
        PrintsAppend([audit], audited, Falls, [block], blocked, Falls, depth, p, env);
        assert pass && p.ct == Invalid ==> audited + blocked == ["[BFW AUDIT INVALID] ", "[BFW BLOCK] "];
        assert !pass ==> audited + blocked == none;
        assert [audit] + [block] == LogDenyRules(level) && none + blocked == blocked;
      }
    }
  }

  // A packet over a rule's limit is rejected under a line of its own.
  lemma UserLimitPrints(level: Level, rate: bool, depth: nat, p: Packet, env: Env)
    requires Steady(env, rate)
    ensures Prints(UserLimitRules(level), if level != Off && rate then ["[BFW LIMIT BLOCK] "] else [], Done, depth, p,
                   env)
    ensures Prints([Guarded([], Accept)], [], Done, depth, p, env)
  {
    hide Prints, Tests, Steady, Guarded;
    TestsNothing(p, env);
    VerdictPrints([], true, RejectWith, [], Falls, rate, depth, p, env);
    VerdictPrints([], true, Accept, [], Falls, rate, depth, p, env);
    var reject := [Guarded([], RejectWith)];
    if level == Off {
      assert UserLimitRules(level) == [] + reject == reject;
    } else {
      var line := [RateLimit(3, 5), LogPrefix("[BFW LIMIT BLOCK] ")];
      LinePrints([], true, [RateLimit(3, 5)], "[BFW LIMIT BLOCK] ", rate, depth, p, env);
      assert [] + [RateLimit(3, 5)] + [LogPrefix("[BFW LIMIT BLOCK] ")] == line;
      var lines := if rate then ["[BFW LIMIT BLOCK] "] else [];
      PrintsAppend([line], lines, Falls, reject, [], Done, depth, p, env);
      assert lines + [] == lines;
    }
  }

  // ---- the user chain of a loaded state ----

  // Level off keeps the lines of the rules but returns before them.
  lemma {:induction false} LogGrows(s: Program, rules: seq<Rule>, v6: bool, now: int, h: Hook)
    returns (more: seq<NftRule>)
    requires CompileRules(s, rules, v6, now).Ok?
    ensures CompileRules(s, rules, v6, now).value.log.Get(h) == s.log.Get(h) + more
  {
    hide RuleBlock, PerHook.Add;
    more := [];
    if rules == [] {
      assert s.log.Get(h) + [] == s.log.Get(h);
    } else {
      var before, r := rules[..|rules| - 1], rules[|rules| - 1];
      var init := CompileRules(s, before, v6, now).value;
      var b := RuleBlock(r, v6, now, init.id).value;
      var m := LogGrows(s, before, v6, now, h);
      more := m + if HookOf(r.direction) == h then b.log else [];
      LogAdded(init, HookOf(r.direction), b, h);
      assert s.log.Get(h) + more == (s.log.Get(h) + m) + if HookOf(r.direction) == h then b.log else [];
    }
  }

  lemma SilentStart(more: seq<NftRule>, rate: bool, depth: nat, p: Packet, env: Env)
    requires Steady(env, rate)
    ensures Prints(UserLoggingHead(Off) + more, [], Back, depth, p, env)
  {
    hide Prints, Tests, Steady;
    TestsNothing(p, env);
    VerdictPrints([], true, Return, [], Falls, rate, depth, p, env);
    assert Guarded([], Return) == [Counter, Expr.Verdict(Return)];
    PrintsAppend([Guarded([], Return)], [], Back, more, [], Falls, depth, p, env);
  }

  // The logging chain of a hook, whoever jumps there.
  lemma LoggingChain(start: Sets, id: nat, level: Level, rules4: seq<Rule>, rules6: seq<Rule>, now: int, four: Program,
      prog: Program, h: Hook, rate: bool, depth: nat, p: Packet, env: Env)
    requires p.Valid() && Steady(env, rate) && AllCompilable(rules4) && AllCompilable(rules6)
    requires AddressSetsOnly(start) && env.sets == prog.sets
    requires CompileRules(UserStart(level, start, id), rules4, false, now) == Ok(four)
    requires CompileRules(four, rules6, true, now) == Ok(prog)
    ensures var r := FirstSpeaker(if p.v6 then rules6 else rules4, h, now, p, env);
            Prints(prog.log.Get(h), if level == Off then [] else LineFrom(r, rate),
                   if level == Off || r.Some? then Back else Falls, depth, p, env)
  {
    hide Prints, CompileRules, Steady, Hits, IfacePattern, Rule.Valid, FirstSpeaker;
    var s := UserStart(level, start, id);
    var more4 := LogGrows(s, rules4, false, now, h);
    var more6 := LogGrows(four, rules6, true, now, h);
    CompiledSets(s, rules4, false, now);
    CompiledSets(four, rules6, true, now);
    if level == Off {
      SilentStart(more4 + more6, rate, depth, p, env);
      assert prog.log.Get(h) == UserLoggingHead(Off) + (more4 + more6);
    } else {
      PrintsNothing(depth, p, env);
      RulesLog(s, rules4, false, now, h, None, rate, depth, p, env);
      var r := if p.v6 then None else FirstSpeaker(rules4, h, now, p, env);
      RulesLog(four, rules6, true, now, h, r, rate, depth, p, env);
    }
  }

  // In every loaded state, for a packet of a hook: without a rule that
  // takes it the user chain prints nothing. Otherwise the first such rule
  // prints, if it logs, the line of the first rule from it on that takes
  // the packet and speaks about it; and the limit line if its meter rejects
  // the packet. Level off and an exceeded rate limit silence both.
  lemma {:induction false} UserLines(env: Env, st: State, pol: Policies, ipv6: bool, now: int, prog: Program,
      h: Hook, rate: bool, depth: nat, p: Packet)
    requires Loaded(env.chains, env.sets, st, pol, ipv6, now, prog) && p.Valid() && depth > 0 && Steady(env, rate)
    requires AllCompilable(st.rules4) && AllCompilable(st.rules6)
    ensures var rules, loud := if p.v6 then st.rules6 else st.rules4, st.logging != Off && rate;
            var r := FirstHit(rules, h, now, p, env);
            Prints(env.chains[User(h)],
                   HitLines(r, LineFrom(FirstSpeaker(rules, h, now, p, env), loud),
                            if loud then ["[BFW LIMIT BLOCK] "] else [], p, env),
                   if r.Some? then Done else Falls, depth, p, env)
  {
    hide Prints, CompileRules, Steady, IfacePattern, Rule.Valid, FirstSpeaker, FirstHit, BansLoaded, NamedLoaded,
         TakenLines, BeforeLoggingRules, AfterLoggingRules, BeforeChain, AfterChain, BaseChain, UserLimitRules;
    var start, id, four := UserSource(env, st, pol, ipv6, now, prog);
    var rules, loud := if p.v6 then st.rules6 else st.rules4, st.logging != Off && rate;
    assert forall r :: r in rules ==> r.Valid();
    LoggingChain(start, id, st.logging, st.rules4, st.rules6, now, four, prog, h, rate, depth - 1, p, env);
    UserLimitPrints(st.logging, rate, depth - 1, p, env);
    var speaker := FirstSpeaker(rules, h, now, p, env);
    var lines, over := LineFrom(speaker, loud), if loud then ["[BFW LIMIT BLOCK] "] else [];
    var end := if st.logging == Off || speaker.Some? then Back else Falls;
    assert TargetsPrint(h, lines, end, over, depth - 1, p, env);
    var s := UserStart(st.logging, start, id);
    CompiledSets(s, st.rules4, false, now);
    CompiledSets(four, st.rules6, true, now);
    PrintsNothing(depth, p, env);
    RulesPrint(s, st.rules4, false, now, h, None, lines, end, over, rate, depth, p, env);
    var r := if p.v6 then None else FirstHit(st.rules4, h, now, p, env);
    RulesPrint(four, st.rules6, true, now, h, r, lines, end, over, rate, depth, p, env);
  }

  // ---- by position ----

  ghost predicate HitAt(rules: seq<Rule>, h: Hook, now: int, p: Packet, env: Env, i: nat)
    requires p.Valid() && forall r :: r in rules ==> r.Valid()
  {
    && i < |rules| && Hits(rules[i], h, now, p, env)
    && forall j :: 0 <= j < i ==> !Hits(rules[j], h, now, p, env)
  }

  ghost predicate SpeakerAt(rules: seq<Rule>, h: Hook, now: int, p: Packet, env: Env, k: nat)
    requires p.Valid() && forall r :: r in rules ==> r.Valid()
  {
    && k < |rules| && Hits(rules[k], h, now, p, env) && Speaks(rules[k], p)
    && forall j :: 0 <= j < k ==> !(Hits(rules[j], h, now, p, env) && Speaks(rules[j], p))
  }

  lemma {:induction false} HitMeans(rules: seq<Rule>, h: Hook, now: int, p: Packet, env: Env)
    requires p.Valid() && forall r :: r in rules ==> r.Valid()
    ensures forall i: nat :: HitAt(rules, h, now, p, env, i) ==> FirstHit(rules, h, now, p, env) == Some(rules[i])
    ensures FirstHit(rules, h, now, p, env).None? <==>
            forall i :: 0 <= i < |rules| ==> !Hits(rules[i], h, now, p, env)
  {
    hide Hits;
    if rules != [] {
      var init := rules[..|rules| - 1];
      assert forall r :: r in init ==> r in rules;
      HitMeans(init, h, now, p, env);
      assert forall j :: 0 <= j < |init| ==> init[j] == rules[j];
      forall i: nat | HitAt(rules, h, now, p, env, i) ensures FirstHit(rules, h, now, p, env) == Some(rules[i]) {
        if i < |init| { assert HitAt(init, h, now, p, env, i); }
      }
    }
  }

  lemma {:induction false} SpeakerMeans(rules: seq<Rule>, h: Hook, now: int, p: Packet, env: Env)
    requires p.Valid() && forall r :: r in rules ==> r.Valid()
    ensures forall k: nat ::
              SpeakerAt(rules, h, now, p, env, k) ==> FirstSpeaker(rules, h, now, p, env) == Some(rules[k])
    ensures FirstSpeaker(rules, h, now, p, env).None? <==>
            forall k :: 0 <= k < |rules| ==> !(Hits(rules[k], h, now, p, env) && Speaks(rules[k], p))
  {
    hide Hits, Speaks;
    if rules != [] {
      var init := rules[..|rules| - 1];
      assert forall r :: r in init ==> r in rules;
      SpeakerMeans(init, h, now, p, env);
      assert forall j :: 0 <= j < |init| ==> init[j] == rules[j];
      forall k: nat | SpeakerAt(rules, h, now, p, env, k)
        ensures FirstSpeaker(rules, h, now, p, env) == Some(rules[k])
      {
        if k < |init| { assert SpeakerAt(init, h, now, p, env, k); }
      }
    }
  }

  // A rule's packets get the rule's own line if the rule speaks about them;
  // of a rule that logs new connections only, an untracked packet gets the
  // line of the next rule that takes it and speaks, if there is one.
  lemma {:induction false} OwnLine(rules: seq<Rule>, h: Hook, now: int, p: Packet, env: Env, i: nat)
    requires p.Valid() && (forall r :: r in rules ==> r.Valid()) && HitAt(rules, h, now, p, env, i)
    ensures FirstHit(rules, h, now, p, env) == Some(rules[i])
    ensures Speaks(rules[i], p) ==> FirstSpeaker(rules, h, now, p, env) == Some(rules[i])
    ensures !Speaks(rules[i], p) ==>
              forall k: nat :: SpeakerAt(rules, h, now, p, env, k) ==>
                k > i && FirstSpeaker(rules, h, now, p, env) == Some(rules[k])
  {
    hide Hits, Speaks, FirstHit, FirstSpeaker;
    HitMeans(rules, h, now, p, env);
    SpeakerMeans(rules, h, now, p, env);
    if Speaks(rules[i], p) { assert SpeakerAt(rules, h, now, p, env, i); }
  }
}
