/** All log lines of a packet at a hook: what the built-in chains print, and
    how they and the user rules add up in the base chain. */
module BaseLogs {
  import opened Bytes
  import opened AddressSets
  import opened Outcomes
  import opened Rules
  import opened Netfilter
  import opened Matching
  import opened RuleCompiler
  import opened BuiltinChains
  import opened Compiler
  import opened LogLines
  import opened UserLogs

  // ---- chains that print nothing ----

  predicate Bare(es: NftRule) { forall j :: 0 <= j < |es| ==> !es[j].LogPrefix? && !es[j].Verdict? }

  predicate MuteRule(es: NftRule)
  {
    forall j :: 0 <= j < |es| ==> !es[j].LogPrefix? && !(es[j].Verdict? && es[j].verdict.Jump?)
  }

  predicate Mute(rules: seq<NftRule>) { forall i :: 0 <= i < |rules| ==> MuteRule(rules[i]) }

  lemma {:induction false} MutePrints(rules: seq<NftRule>, depth: nat, p: Packet, env: Env, t: nat)
    requires Mute(rules)
    ensures ChainLines(rules, depth, p, env, t) == []
    decreases |rules|
  {
    if rules != [] {
      hide RunExprs, ExprLines;
      assert MuteRule(rules[0]);
      QuietPrints(rules[0], p, env, map[], t);
      var f := RunExprs(rules[0], p, env, map[], t);
      if f.Stop? {
        var j := StopsAtVerdict(rules[0], p, env, map[], t);
      } else {
        assert Mute(rules[1..]) by { assert forall i :: 0 <= i < |rules[1..]| ==> rules[1..][i] == rules[i + 1]; }
        MutePrints(rules[1..], depth, p, env, f.t);
      }
    }
  }

  function EndFor(d: Option<Decision>): End { if d.Some? then Done else Falls }

  lemma MuteSettles(rules: seq<NftRule>, d: Option<Decision>, depth: nat, p: Packet, env: Env)
    requires Mute(rules) && Settles(rules, d, depth, p, env)
    ensures Prints(rules, [], EndFor(d), depth, p, env)
  {
    hide RunChain, ChainLines, MuteRule;
    forall t: nat
      ensures EndsAs(RunChain(rules, depth, p, env, t), EndFor(d)) && ChainLines(rules, depth, p, env, t) == []
    {
      MutePrints(rules, depth, p, env, t);
      assert OutcomeIs(RunChain(rules, depth, p, env, t), d);
    }
  }

  lemma MuteGuards(ms: seq<NftRule>, v: Verdict)
    requires (forall i :: 0 <= i < |ms| ==> Bare(ms[i])) && !v.Jump?
    ensures Mute(GuardAll(ms, v))
  {
    forall i | 0 <= i < |ms| ensures MuteRule(GuardAll(ms, v)[i]) { assert Bare(ms[i]); }
  }

  lemma MuteIcmp(v6: bool, types: seq<byte>)
    ensures Mute(GuardAll(IcmpAccepts(v6, types), Accept))
  {
    hide GuardAll, MuteRule;
    forall i | 0 <= i < |types| ensures Bare(IcmpAccepts(v6, types)[i]) {}
    MuteGuards(IcmpAccepts(v6, types), Accept);
  }

  lemma MuteIcmp6(rs: seq<Icmp6>)
    ensures Mute(GuardAll(Icmp6Matches(rs), Accept))
  {
    hide GuardAll, CidrMask, Net.First, MuteRule;
    forall i | 0 <= i < |rs| ensures Bare(Icmp6Matches(rs)[i]) {}
    MuteGuards(Icmp6Matches(rs), Accept);
  }

  lemma BareUdp()
    ensures forall v6, src, sport, dst, dport :: Bare(UdpMatch(v6, src, sport, dst, dport))
  {
    hide FamilyProto, PortEq, AddrMatch;
    BareParts();
  }

  lemma BareParts()
    ensures forall v6, l4 :: Bare(FamilyProto(v6, l4))
    ensures forall source, x :: Bare(PortEq(source, x))
    ensures forall source, a, v6 :: Bare(AddrMatch(source, a, v6))
  {
    hide PortBytes, CidrMask, Net.First;
  }

  lemma MuteUdp()
    ensures Mute(GuardAll(MulticastMatches(), Accept)) && Mute(DhcpRules()) && Mute(BanRules())
  {
    hide GuardAll, MuteRule, PortBytes, CidrMask, Net.First;
    BareUdp();
    MuteGuards(MulticastMatches(), Accept);
    MuteGuards([UdpMatch(false, AnyAddr, Some(67), AnyAddr, 68),
        UdpMatch(true, LINK_LOCAL, Some(547), LINK_LOCAL, 546)], Accept);
    MuteGuards([BanMatch(false), BanMatch(true)], Drop);
  }

  lemma MuteSingles()
    ensures Mute(LoRule(Iifname)) && Mute(LoRule(Oifname)) && Mute(Rh0Rule()) && Mute(EstablishedRule())
  {
    hide PadName, WildcardMask;
  }

  lemma MuteTail(pol: Policy)
    ensures Mute(RejectRules(pol)) && Mute(TrackRules(pol)) && Mute(SkipRules(pol))
  {
    hide GuardAll, MuteRule;
    MuteGuards(TrackMatches(), Accept);
    SinglesMute(pol);
  }

  lemma SinglesMute(pol: Policy)
    ensures Mute([Guarded([], RejectWith)]) && Mute([Guarded([], Final(PolicyVerdict(pol)))])
  {
  }

  lemma MuteBase(h: Hook, ipv6: bool)
    ensures Mute(Guards(h, ipv6))
  {
    hide PadName, WildcardMask;
  }

  // ---- parts one after the other ----

  ghost predicate AllPrint(parts: seq<seq<NftRule>>, ls: seq<seq<string>>, ds: seq<Option<Decision>>, depth: nat,
      p: Packet, env: Env)
  {
    && |parts| == |ls| == |ds|
    && forall i :: 0 <= i < |parts| ==> Prints(parts[i], ls[i], EndFor(ds[i]), depth, p, env)
  }

  // The lines of the parts up to the first that decides.
  function LinesTo(ls: seq<seq<string>>, ds: seq<Option<Decision>>): seq<string>
    requires |ls| == |ds|
  {
    if ls == [] then [] else ls[0] + if ds[0].Some? then [] else LinesTo(ls[1..], ds[1..])
  }

  lemma {:induction false} ConcatPrints(parts: seq<seq<NftRule>>, ls: seq<seq<string>>, ds: seq<Option<Decision>>,
      depth: nat, p: Packet, env: Env)
    requires AllPrint(parts, ls, ds, depth, p, env)
    ensures Prints(Concat(parts), LinesTo(ls, ds), EndFor(FirstOf(ds)), depth, p, env)
  {
    hide Prints;
    if parts == [] {
      PrintsNothing(depth, p, env);
    } else {
      ConcatPrints(parts[1..], ls[1..], ds[1..], depth, p, env);
      PrintsAppend(parts[0], ls[0], EndFor(ds[0]), Concat(parts[1..]), LinesTo(ls[1..], ds[1..]),
                   EndFor(FirstOf(ds[1..])), depth, p, env);
      assert ls[0] + [] == ls[0];
    }
  }

  // ---- refused before the user rules ----

  // What the deny chain prints.
  function DenyLines(level: Level, p: Packet, rate: bool): seq<string>
  {
    if level == Off || !Passes(level, rate) then []
    else if p.ct != Invalid then ["[BFW BLOCK] "]
    else if level == Low then [] else ["[BFW AUDIT INVALID] ", "[BFW BLOCK] "]
  }

  lemma InvalidPrints(level: Level, rate: bool, depth: nat, p: Packet, env: Env)
    requires Steady(env, rate) && LogDeny in env.chains && env.chains[LogDeny] == LogDenyRules(level) && depth > 0
    ensures Prints(InvalidRules(), if p.ct == Invalid then DenyLines(level, p, rate) else [],
                   EndFor(When(p.ct == Invalid, Dropped)), depth, p, env)
  {
    hide Prints, Tests, Steady, CtMatch, And8, LogDenyRules, Guarded, Passes;
    CtTests(1, p, env);
    CtStates(p.ct);
    QuietCt(1);
    var lines := DenyLines(level, p, rate);
    LogDenyPrints(level, rate, depth - 1, p, env);
    var end := if level == Low && p.ct == Invalid && rate then Back else Falls;
    VerdictPrints(CtMatch(1), p.ct == Invalid, Jump(LogDeny), lines, end, rate, depth, p, env);
    VerdictPrints(CtMatch(1), p.ct == Invalid, Drop, [], Falls, rate, depth, p, env);
    PrintsAppend([Guarded(CtMatch(1), Jump(LogDeny))], if p.ct == Invalid then lines else [], Falls,
                 [Guarded(CtMatch(1), Drop)], [], if p.ct == Invalid then Done else Falls, depth, p, env);
    var none: seq<string> := [];
    assert lines + none == lines && none + none == none;
  }

  // Destinations that are not ours are logged at the rate of their rule.
  lemma NotLocalChainPrints(level: Level, rate: bool, depth: nat, p: Packet, env: Env)
    requires Steady(env, rate) && LogDeny in env.chains && env.chains[LogDeny] == LogDenyRules(level) && depth > 0
    ensures Prints(NotLocalChain(), if !OurDestination(p) && rate then DenyLines(level, p, rate) else [],
                   if OurDestination(p) then Back else Done, depth, p, env)
  {
    hide Prints, Tests, Steady, FibMatch, LogDenyRules, Passes, DenyLines;
    var none: seq<string> := [];
    var f2, f5, f3 := [Guarded(FibMatch(2), Return)], [Guarded(FibMatch(5), Return)], [Guarded(FibMatch(3), Return)];
    var log, drop := [[LIMIT3, Counter, Expr.Verdict(Jump(LogDeny))]], [Guarded([], Drop)];
    ReturnPrints(2, rate, depth, p, env);
    ReturnPrints(5, rate, depth, p, env);
    ReturnPrints(3, rate, depth, p, env);
    TestsNothing(p, env);
    var lines := DenyLines(level, p, rate);
    LogDenyPrints(level, rate, depth - 1, p, env);
    assert lines == (if level == Off || !Passes(level, rate) then []
                     else if p.ct != Invalid then ["[BFW BLOCK] "]
                     else if level == Low then [] else ["[BFW AUDIT INVALID] ", "[BFW BLOCK] "]) by {
      DenyIs(level, p, rate);
    }
    var end := if level == Low && p.ct == Invalid && rate then Back else Falls;
    RulePrints([], true, [LIMIT3], Tail.Verdict(Jump(LogDeny)), lines, end, rate, depth, p, env);
    assert [] + TailExprs([LIMIT3], Tail.Verdict(Jump(LogDeny))) == [LIMIT3, Counter, Expr.Verdict(Jump(LogDeny))];
    VerdictPrints([], true, Drop, [], Falls, rate, depth, p, env);
    var some := if rate then lines else [];
    assert some + none == some && none + some == some && none + none == none;
    PrintsAppend(log, some, Falls, drop, [], Done, depth, p, env);
    PrintsAppend(f3, [], if p.fib == 3 then Back else Falls, log + drop, some, Done, depth, p, env);
    PrintsAppend(f5, [], if p.fib == 5 then Back else Falls, f3 + (log + drop), if p.fib == 3 then [] else some,
                 if p.fib == 3 then Back else Done, depth, p, env);
    PrintsAppend(f2, [], if p.fib == 2 then Back else Falls, f5 + (f3 + (log + drop)),
                 if p.fib == 5 || p.fib == 3 then [] else some, if p.fib == 5 || p.fib == 3 then Back else Done,
                 depth, p, env);
    assert GuardAll([FibMatch(2), FibMatch(5), FibMatch(3)], Return) == f2 + (f5 + f3);
    assert NotLocalChain() == f2 + (f5 + (f3 + (log + drop)));
  }

  lemma DenyIs(level: Level, p: Packet, rate: bool)
    ensures DenyLines(level, p, rate) ==
            if level == Off || !Passes(level, rate) then []
            else if p.ct != Invalid then ["[BFW BLOCK] "]
            else if level == Low then [] else ["[BFW AUDIT INVALID] ", "[BFW BLOCK] "]
  {
  }

  lemma ReturnPrints(n: byte, rate: bool, depth: nat, p: Packet, env: Env)
    requires Steady(env, rate)
    ensures Prints([Guarded(FibMatch(n), Return)], [], if p.fib == n then Back else Falls, depth, p, env)
  {
    hide Prints, Tests, Steady;
    FibTests(n, p, env);
    VerdictPrints(FibMatch(n), p.fib == n, Return, [], Falls, rate, depth, p, env);
  }

  lemma NotLocalPrints(level: Level, rate: bool, depth: nat, p: Packet, env: Env)
    requires Steady(env, rate) && LogDeny in env.chains && env.chains[LogDeny] == LogDenyRules(level) && depth > 1
    requires NotLocal in env.chains && env.chains[NotLocal] == NotLocalChain()
    ensures var refused := !p.v6 && !OurDestination(p);
            Prints(NotLocalRule(), if refused && rate then DenyLines(level, p, rate) else [],
                   EndFor(When(refused, Dropped)), depth, p, env)
  {
    hide Prints, Tests, Steady, NotLocalChain, LogDenyRules, DenyLines, Guarded;
    NfprotoTests(false, p, env);
    NotLocalChainPrints(level, rate, depth - 1, p, env);
    QuietProto();
    VerdictPrints(NfprotoMatch(false), !p.v6, Jump(NotLocal),
                  if !OurDestination(p) && rate then DenyLines(level, p, rate) else [],
                  if OurDestination(p) then Back else Done, rate, depth, p, env);
  }

  lemma QuietProto()
    ensures Quiet(NfprotoMatch(false))
  {
  }

  // ---- the before chains ----

  // Only two clauses of the input chain print.
  function BeforeLines(h: Hook, level: Level, p: Packet, rate: bool): seq<seq<string>>
  {
    match h
    case Input =>
      [[], [], [], [], [], if p.ct == Invalid then DenyLines(level, p, rate) else [], [], [], [], [],
       if !p.v6 && !OurDestination(p) && rate then DenyLines(level, p, rate) else [], []]
    case _ => [[], [], [], [], []]
  }

  ghost predicate BeforeLoaded(env: Env, level: Level)
  {
    BeforeTargets(env) && env.chains[LogDeny] == LogDenyRules(level)
  }

  lemma BeforePrints(h: Hook, level: Level, rate: bool, depth: nat, p: Packet, env: Env)
    requires p.Valid() && Steady(env, rate) && BeforeLoaded(env, level) && depth > 1
    ensures Prints(BeforeChain(h), LinesTo(BeforeLines(h, level, p, rate), BeforeClauses(h, p, env)),
                   EndFor(BeforeDecision(h, p, env)), depth, p, env)
  {
    hide Prints, BeforeLoaded, BeforeParts, BeforeClauses, BeforeLines, Steady, Concat, FirstOf;
    match h {
      case Input => InputPrints(level, rate, depth, p, env);
      case Output => OutputPrints(level, rate, depth, p, env);
      case ForwardHook => ForwardPrints(level, rate, depth, p, env);
    }
    ConcatPrints(BeforeParts(h), BeforeLines(h, level, p, rate), BeforeClauses(h, p, env), depth, p, env);
  }

  lemma InputPrints(level: Level, rate: bool, depth: nat, p: Packet, env: Env)
    requires p.Valid() && Steady(env, rate) && BeforeLoaded(env, level) && depth > 1
    ensures AllPrint(BeforeParts(Input), BeforeLines(Input, level, p, rate), BeforeClauses(Input, p, env), depth, p,
                     env)
  {
    hide Prints, Steady, Harmless, LoRule, Rh0Rule, BanRules, EstablishedRule, InvalidRules, DhcpRules, NotLocalRule,
         NotLocalChain, LogDenyRules, Mute, DenyLines;
    hide GuardAll, MulticastMatches, IcmpAccepts, Icmp6Matches;
    hide IsRh0, Banned, Tracked, AnyIcmp, AnyIcmp6, IsDhcp, OurDestination, MulticastConds, When, EndFor, Settles;
    BeforeInputSettles(depth, p, env);
    MuteSingles();
    MuteUdp();
    MuteIcmp(true, REPLY6);
    MuteIcmp(false, ERRORS4);
    MuteIcmp(true, MOBILE6);
    MuteIcmp6(V6_HEAD + V6_TAIL);
    InvalidPrints(level, rate, depth, p, env);
    NotLocalPrints(level, rate, depth, p, env);
    var parts, ds := BeforeParts(Input), BeforeClauses(Input, p, env);
    forall i | 0 <= i < 12 && i != 5 && i != 10 ensures Prints(parts[i], [], EndFor(ds[i]), depth, p, env) {
      assert Mute(parts[i]);
      MuteSettles(parts[i], ds[i], depth, p, env);
    }
  }

  lemma OutputPrints(level: Level, rate: bool, depth: nat, p: Packet, env: Env)
    requires p.Valid() && Steady(env, rate) && BeforeLoaded(env, level) && depth > 1
    ensures AllPrint(BeforeParts(Output), BeforeLines(Output, level, p, rate), BeforeClauses(Output, p, env), depth, p,
                     env)
  {
    hide Prints, Steady, LoRule, Rh0Rule, EstablishedRule, GuardAll, NotLocalChain, Guarded, Icmp6Matches, Mute;
    hide IsRh0, Tracked, AnyIcmp6, When, EndFor, Settles, Tests, LogDenyRules;
    BeforeOutputSettles(depth, p, env);
    MuteSingles();
    MuteIcmp6(V6_HEAD + [Plain(129)] + V6_TAIL);
    TestsNothing(p, env);
    PrintsNothing(depth - 1, p, env);
    VerdictPrints([], true, Jump(UserEgress), [], Falls, rate, depth, p, env);
    var parts, ds := BeforeParts(Output), BeforeClauses(Output, p, env);
    forall i | 0 <= i < 4 ensures Prints(parts[i], [], EndFor(ds[i]), depth, p, env) {
      assert Mute(parts[i]);
      MuteSettles(parts[i], ds[i], depth, p, env);
    }
    assert EndFor(None) == Falls by { NothingFalls(); }
  }

  lemma NothingFalls()
    ensures EndFor(None) == Falls
  {
  }

  lemma ForwardPrints(level: Level, rate: bool, depth: nat, p: Packet, env: Env)
    requires p.Valid() && Steady(env, rate) && BeforeLoaded(env, level) && depth > 1
    ensures AllPrint(BeforeParts(ForwardHook), BeforeLines(ForwardHook, level, p, rate),
                     BeforeClauses(ForwardHook, p, env), depth, p, env)
  {
    hide Prints, Steady, Rh0Rule, BanRules, EstablishedRule, GuardAll, IcmpAccepts, Icmp6Matches, Mute;
    hide IsRh0, Banned, Tracked, AnyIcmp, AnyIcmp6, When, EndFor, Settles;
    BeforeForwardSettles(depth, p, env);
    MuteSingles();
    MuteUdp();
    MuteIcmp(false, ERRORS4);
    MuteIcmp6(V6_HEAD + [Plain(129)]);
    var parts, ds := BeforeParts(ForwardHook), BeforeClauses(ForwardHook, p, env);
    forall i | 0 <= i < 5 ensures Prints(parts[i], [], EndFor(ds[i]), depth, p, env) {
      assert Mute(parts[i]);
      MuteSettles(parts[i], ds[i], depth, p, env);
    }
  }

  // ---- the after chain ----

  // Broadcasts, NetBIOS and DHCP go to the policy without a line.
  ghost predicate Unlisted(h: Hook, p: Packet)
    requires p.Valid()
  {
    && h == Input
    && (|| (!p.v6 && p.fib == 3)
        || (!p.v6 && p.l4 == 17 && p.Dport() in {Some(137), Some(138)})
        || (!p.v6 && p.l4 == 6 && p.Dport() in {Some(139), Some(445)})
        || (!p.v6 && p.l4 == 17 && p.Sport() == Some(67) && p.Dport() == Some(68))
        || (p.v6 && p.l4 == 17 && p.Dport() in {Some(546), Some(547)}))
  }

  lemma {:induction false} GuardsPrint(ms: seq<NftRule>, cs: seq<bool>, c: Chain, rate: bool, depth: nat, p: Packet,
      env: Env)
    requires |ms| == |cs| && Steady(env, rate)
    requires forall i :: 0 <= i < |ms| ==> Tests(ms[i], cs[i], p, env) && Quiet(ms[i])
    requires c in env.chains && depth > 0 && Prints(env.chains[c], [], Done, depth - 1, p, env)
    ensures Prints(GuardAll(ms, Jump(c)), [], if true in cs then Done else Falls, depth, p, env)
  {
    hide Prints, Tests, Guarded, Quiet, Steady;
    if ms == [] {
      PrintsNothing(depth, p, env);
    } else {
      var n := |ms| - 1;
      var none: seq<string> := [];
      GuardsPrint(ms[..n], cs[..n], c, rate, depth, p, env);
      VerdictPrints(ms[n], cs[n], Jump(c), [], Done, rate, depth, p, env);
      PrintsAppend(GuardAll(ms[..n], Jump(c)), [], if true in cs[..n] then Done else Falls,
                   [Guarded(ms[n], Jump(c))], [], if cs[n] then Done else Falls, depth, p, env);
      assert GuardAll(ms, Jump(c)) == GuardAll(ms[..n], Jump(c)) + [Guarded(ms[n], Jump(c))];
      assert cs == cs[..n] + [cs[n]] && none + none == none;
    }
  }

  lemma AfterPrints(h: Hook, pol: Policy, rate: bool, depth: nat, p: Packet, env: Env)
    requires p.Valid() && depth > 0 && Steady(env, rate)
    requires SkipToPolicy(Input) in env.chains && (h == Input ==> env.chains[SkipToPolicy(Input)] == SkipRules(pol))
    ensures Prints(AfterChain(h), [], if Unlisted(h, p) then Done else Falls, depth, p, env)
  {
    hide Prints, Tests, Steady, GuardAll, SkipRules, Settles, Mute, AfterMatches, Packet.Dport, Packet.Sport;
    if h == Input {
      var cs := AfterTests(p, env);
      AfterQuiet();
      SkipSettles(pol, depth - 1, p, env);
      MuteTail(pol);
      MuteSettles(SkipRules(pol), Some(PolicyVerdict(pol)), depth - 1, p, env);
      GuardsPrint(AfterMatches(), cs, SkipToPolicy(Input), rate, depth, p, env);
    } else {
      PrintsNothing(depth, p, env);
    }
  }

  lemma AfterTests(p: Packet, env: Env) returns (cs: seq<bool>)
    requires p.Valid()
    ensures |cs| == |AfterMatches()| && forall i :: 0 <= i < |cs| ==> Tests(AfterMatches()[i], cs[i], p, env)
    ensures true in cs <==> Unlisted(Input, p)
  {
    hide Tests, UdpMatch, TcpMatch, NfprotoMatch, FibMatch, Packet.Dport, Packet.Sport;
    NfprotoTests(false, p, env);
    FibTests(3, p, env);
    Both(NfprotoMatch(false), p.v6 == false, FibMatch(3), p.fib == 3, p, env);
    UdpTests(false, AnyAddr, None, AnyAddr, 137, p, env);
    UdpTests(false, AnyAddr, None, AnyAddr, 138, p, env);
    TcpTests(139, p, env);
    TcpTests(445, p, env);
    UdpTests(false, AnyAddr, Some(67), AnyAddr, 68, p, env);
    UdpTests(true, AnyAddr, None, AnyAddr, 546, p, env);
    UdpTests(true, AnyAddr, None, AnyAddr, 547, p, env);
    cs := [p.v6 == false && p.fib == 3,
           UdpHolds(p, false, AnyAddr, None, AnyAddr, 137), UdpHolds(p, false, AnyAddr, None, AnyAddr, 138),
           (p.v6 == false && p.l4 == 6) && p.Dport() == Some(139),
           (p.v6 == false && p.l4 == 6) && p.Dport() == Some(445),
           UdpHolds(p, false, AnyAddr, Some(67), AnyAddr, 68),
           UdpHolds(p, true, AnyAddr, None, AnyAddr, 546), UdpHolds(p, true, AnyAddr, None, AnyAddr, 547)];
  }

  lemma AfterQuiet()
    ensures forall i :: 0 <= i < |AfterMatches()| ==> Quiet(AfterMatches()[i])
  {
    hide UdpMatch, FamilyProto, PortEq;
    BareUdp();
    BareParts();
    assert Bare(UdpMatch(false, AnyAddr, None, AnyAddr, 137));
    assert Quiet(NfprotoMatch(false) + FibMatch(3));
    assert Quiet(TcpMatch(139)) && Quiet(TcpMatch(445));
  }

  // ---- the base chain ----

  // The audit before everything else.
  function AuditLines(level: Level, p: Packet, rate: bool): seq<string>
  {
    match level
    case Off => []
    case Low => []
    case Medium => if p.ct == New && rate then ["[BFW AUDIT] "] else []
    case High => if rate then ["[BFW AUDIT] "] else []
    case _ => ["[BFW AUDIT] "]
  }

  // What is left to the policy.
  function PolicyLines(level: Level, pol: Policy, rate: bool): seq<string>
  {
    if level == Off || !Passes(level, rate) then []
    else if pol == DenyPolicy || pol == RejectPolicy then ["[BFW BLOCK] "]
    else if level == Low then [] else ["[BFW ALLOW] "]
  }

  // Refusals before the user rules: invalid packets that no earlier clause
  // of the input chain settles, and IPv4 destinations that are not ours.
  ghost function RefusalLines(h: Hook, level: Level, p: Packet, rate: bool, env: Env): seq<string>
    requires p.Valid()
  {
    if h != Input then []
    else
      var clauses := BeforeClauses(Input, p, env);
      if FirstOf(clauses[..5]).None? && p.ct == Invalid then DenyLines(level, p, rate)
      else if FirstOf(clauses[..10]).None? && !p.v6 && !OurDestination(p) && rate then DenyLines(level, p, rate)
      else []
  }

  lemma {:induction false} NoLines(ls: seq<seq<string>>, ds: seq<Option<Decision>>)
    requires |ls| == |ds| && forall i :: 0 <= i < |ls| ==> ls[i] == []
    ensures LinesTo(ls, ds) == []
  {
    if ls != [] { NoLines(ls[1..], ds[1..]); }
  }

  lemma {:induction false} LinesAt(ls: seq<seq<string>>, ds: seq<Option<Decision>>, k: nat)
    requires |ls| == |ds| && k < |ls| && forall i :: 0 <= i < k ==> ls[i] == []
    ensures LinesTo(ls, ds) ==
            if FirstOf(ds[..k]).Some? then [] else ls[k] + if ds[k].Some? then [] else LinesTo(ls[k + 1..], ds[k + 1..])
  {
    if k > 0 {
      LinesAt(ls[1..], ds[1..], k - 1);
      assert ds[..k][0] == ds[0] && ds[..k][1..] == ds[1..][..k - 1];
      assert ls[1..][k..] == ls[k + 1..] && ds[1..][k..] == ds[k + 1..];
    }
  }

  lemma {:induction false} FirstOfSplit(ds: seq<Option<Decision>>, k: nat)
    requires k <= |ds|
    ensures FirstOf(ds) == Or(FirstOf(ds[..k]), FirstOf(ds[k..]))
  {
    assert ds == ds[..k] + ds[k..];
    FirstOfAppend(ds[..k], ds[k..]);
  }

  lemma RefusalsAre(h: Hook, level: Level, p: Packet, rate: bool, env: Env)
    requires p.Valid()
    ensures LinesTo(BeforeLines(h, level, p, rate), BeforeClauses(h, p, env)) == RefusalLines(h, level, p, rate, env)
    ensures BeforeDecision(h, p, env).None? ==> RefusalLines(h, level, p, rate, env) == []
  {
    hide IsRh0, Banned, Tracked, AnyIcmp, AnyIcmp6, IsDhcp, OurDestination, MulticastConds, DenyLines, FirstOf, LinesTo;
    var ls, ds := BeforeLines(h, level, p, rate), BeforeClauses(h, p, env);
    if h != Input {
      NoLines(ls, ds);
    } else {
      var rest, more := ls[6..], ds[6..];
      LinesAt(ls, ds, 5);
      LinesAt(rest, more, 4);
      NoLines(rest[5..], more[5..]);
      FirstOfSplit(ds[..10], 5);
      FirstOfSplit(ds, 10);
      FirstOfSplit(ds, 5);
      assert ds[..10][..5] == ds[..5] && ds[..10][5..] == [ds[5]] + more[..4];
      FirstOfCons(ds[5], more[..4]);
      assert ds[10..] == [ds[10]] + ds[11..] && ds[5..] == [ds[5]] + ds[6..];
      FirstOfCons(ds[10], ds[11..]);
      FirstOfCons(ds[5], ds[6..]);
    }
  }

  lemma JumpPrints(c: Chain, lines: seq<string>, end: End, rate: bool, depth: nat, p: Packet, env: Env)
    requires Steady(env, rate) && c in env.chains && depth > 0 && Prints(env.chains[c], lines, end, depth - 1, p, env)
    ensures Prints(JumpTo(c), lines, if end == Done then Done else Falls, depth, p, env)
  {
    hide Prints, Tests, Steady;
    TestsNothing(p, env);
    VerdictPrints([], true, Jump(c), lines, end, rate, depth, p, env);
  }

  ghost function UserPart(st: State, h: Hook, now: int, rate: bool, p: Packet, env: Env): seq<string>
    requires p.Valid() && forall r :: r in (if p.v6 then st.rules6 else st.rules4) ==> r.Valid()
  {
    var rules, loud := if p.v6 then st.rules6 else st.rules4, st.logging != Off && rate;
    HitLines(FirstHit(rules, h, now, p, env), LineFrom(FirstSpeaker(rules, h, now, p, env), loud),
             if loud then ["[BFW LIMIT BLOCK] "] else [], p, env)
  }

  // Every line of a packet at a hook.
  ghost function HookLines(st: State, pol: Policy, ipv6: bool, h: Hook, now: int, rate: bool, p: Packet, env: Env):
      seq<string>
    requires p.Valid() && forall r :: r in (if p.v6 then st.rules6 else st.rules4) ==> r.Valid()
  {
    if GuardDecision(h, ipv6, p).Some? then []
    else
      AuditLines(st.logging, p, rate)
      + (if BeforeDecision(h, p, env).Some? then RefusalLines(h, st.logging, p, rate, env)
         else
           UserPart(st, h, now, rate, p, env)
           + if FirstHit(if p.v6 then st.rules6 else st.rules4, h, now, p, env).Some? || Unlisted(h, p) then []
             else PolicyLines(st.logging, pol, rate))
  }

  // In every loaded state: the guard is silent; then comes the audit; then
  // either the refusal before the user rules, or the lines of the first
  // rule that takes the packet, or the line of the policy.
  lemma {:induction false} BasePrints(env: Env, st: State, pol: Policies, ipv6: bool, now: int, prog: Program,
      h: Hook, rate: bool, depth: nat, p: Packet)
    requires Loaded(env.chains, env.sets, st, pol, ipv6, now, prog) && p.Valid() && depth >= 3 && Steady(env, rate)
    requires AllCompilable(st.rules4) && AllCompilable(st.rules6)
    ensures (forall r :: r in (if p.v6 then st.rules6 else st.rules4) ==> r.Valid()) && Base(h) in env.chains
    ensures ChainLines(env.chains[Base(h)], depth, p, env, 0) == HookLines(st, pol.Get(h), ipv6, h, now, rate, p, env)
  {
    hide Loaded, Prints, Steady, IfacePattern, Rule.Valid, ChainLines, HookLines, HookLoaded, FirstHit, FirstSpeaker,
         HitLines, LineFrom, Policies.Get;
    HookIsLoaded(env, st, pol, ipv6, now, prog, h);
    HookBase(env, st, pol.Get(h), ipv6, h);
    var rules := if p.v6 then st.rules6 else st.rules4;
    assert forall r :: r in rules ==> r.Valid();
    UserLines(env, st, pol, ipv6, now, prog, h, rate, depth - 1, p);
    PartsPrint(env, st, pol.Get(h), ipv6, now, h, rate, depth, p);
  }

  lemma HookIsLoaded(env: Env, st: State, pol: Policies, ipv6: bool, now: int, prog: Program, h: Hook)
    requires Loaded(env.chains, env.sets, st, pol, ipv6, now, prog)
    ensures HookLoaded(env, st, pol.Get(h), ipv6, h)
  {
    hide Loaded, BeforeTargets, ServiceChains, BaseChain, BeforeChain, AfterChain, RejectRules, TrackRules, SkipRules,
         BeforeLoggingRules, AfterLoggingRules, LogDenyRules, Harmless, Policies.Get;
    ChainsOf(env, st, pol, ipv6, now, prog, h);
    LoadedServices(env, st, pol, ipv6, now, prog);
    LoggedChains(env, st, pol, ipv6, now, prog, h);
  }

  lemma HookBase(env: Env, st: State, pol: Policy, ipv6: bool, h: Hook)
    requires HookLoaded(env, st, pol, ipv6, h)
    ensures Base(h) in env.chains && env.chains[Base(h)] == BaseChain(h, ipv6) && User(h) in env.chains
  {
    hide BaseChain, BeforeChain, AfterChain, BeforeLoaded;
  }

  lemma LoggedChains(env: Env, st: State, pol: Policies, ipv6: bool, now: int, prog: Program, h: Hook)
    requires Loaded(env.chains, env.sets, st, pol, ipv6, now, prog)
    ensures BeforeLogging(h) in env.chains && env.chains[BeforeLogging(h)] == BeforeLoggingRules(st.logging)
    ensures AfterLogging(h) in env.chains && env.chains[AfterLogging(h)] == AfterLoggingRules(st.logging, pol.Get(h))
    ensures LogDeny in env.chains && env.chains[LogDeny] == LogDenyRules(st.logging)
  {
  }

  ghost predicate HookLoaded(env: Env, st: State, pol: Policy, ipv6: bool, h: Hook)
  {
    && (forall c: Chain :: c in env.chains)
    && env.chains[Base(h)] == BaseChain(h, ipv6) && env.chains[Before(h)] == BeforeChain(h)
    && env.chains[After(h)] == AfterChain(h) && env.chains[RejectChain(h)] == RejectRules(pol)
    && env.chains[Track(h)] == TrackRules(pol) && env.chains[SkipToPolicy(h)] == SkipRules(pol)
    && env.chains[BeforeLogging(h)] == BeforeLoggingRules(st.logging)
    && env.chains[AfterLogging(h)] == AfterLoggingRules(st.logging, pol)
    && BeforeLoaded(env, st.logging)
  }

  lemma PartsPrint(env: Env, st: State, pol: Policy, ipv6: bool, now: int, h: Hook, rate: bool, depth: nat, p: Packet)
    requires HookLoaded(env, st, pol, ipv6, h) && p.Valid() && depth >= 3 && Steady(env, rate)
    requires forall r :: r in (if p.v6 then st.rules6 else st.rules4) ==> r.Valid()
    requires Prints(env.chains[User(h)], UserPart(st, h, now, rate, p, env),
                    if FirstHit(if p.v6 then st.rules6 else st.rules4, h, now, p, env).Some? then Done else Falls,
                    depth - 1, p, env)
    ensures ChainLines(env.chains[Base(h)], depth, p, env, 0) == HookLines(st, pol, ipv6, h, now, rate, p, env)
  {
    hide Prints, Steady, Guards, GuardDecision, BeforeChain, BeforeDecision, AfterChain, TrackRules, RejectRules,
         SkipRules, BeforeLoggingRules, AfterLoggingRules, UserPart, FirstHit, RefusalLines, BeforeLines,
         BeforeClauses, Unlisted, BaseChain, BeforeLoaded, Mute, Settles, LinesTo, PolicyLines, AuditLines, Rule.Valid,
         HookLoaded, JumpTo, BaseParts, Concat, FirstOf, AllPrint, ChainLines;
    HookBase(env, st, pol, ipv6, h);
    var hit := FirstHit(if p.v6 then st.rules6 else st.rules4, h, now, p, env);
    var user, after := UserPart(st, h, now, rate, p, env), PolicyLines(st.logging, pol, rate);
    var audit, refused := AuditLines(st.logging, p, rate), RefusalLines(h, st.logging, p, rate, env);
    var r, k := HeadPrints(env, st, pol, ipv6, h, rate, depth, p);
    JumpPrints(User(h), user, if hit.Some? then Done else Falls, rate, depth, p, env);
    var some := Some(Accepted);
    var ds := [GuardDecision(h, ipv6, p), None, BeforeDecision(h, p, env), if hit.Some? then some else None,
               if Unlisted(h, p) then some else None, None, if r then some else None, if k then some else None];
    var ls := [[], audit, refused, user, [], after, [], []];
    EightPrint(env, h, ipv6, ls, ds, depth, p);
    ConcatPrints(BaseParts(h, ipv6), ls, ds, depth, p, env);
    PrintsFrom(env, h, ipv6, LinesTo(ls, ds), EndFor(FirstOf(ds)), depth, p);
    EightLines(ds, audit, refused, user, after);
    RefusalsAre(h, st.logging, p, rate, env);
  }

  lemma EightPrint(env: Env, h: Hook, ipv6: bool, ls: seq<seq<string>>, ds: seq<Option<Decision>>, depth: nat,
      p: Packet)
    requires |ls| == |ds| == 8
    requires Prints(Guards(h, ipv6), ls[0], EndFor(ds[0]), depth, p, env)
    requires Prints(JumpTo(BeforeLogging(h)), ls[1], EndFor(ds[1]), depth, p, env)
    requires Prints(JumpTo(Before(h)), ls[2], EndFor(ds[2]), depth, p, env)
    requires Prints(JumpTo(User(h)), ls[3], EndFor(ds[3]), depth, p, env)
    requires Prints(JumpTo(After(h)), ls[4], EndFor(ds[4]), depth, p, env)
    requires Prints(JumpTo(AfterLogging(h)), ls[5], EndFor(ds[5]), depth, p, env)
    requires Prints(JumpTo(RejectChain(h)), ls[6], EndFor(ds[6]), depth, p, env)
    requires Prints(JumpTo(Track(h)), ls[7], EndFor(ds[7]), depth, p, env)
    ensures AllPrint(BaseParts(h, ipv6), ls, ds, depth, p, env)
  {
    hide Prints, Guards, JumpTo, EndFor;
  }

  lemma PrintsFrom(env: Env, h: Hook, ipv6: bool, lines: seq<string>, end: End, depth: nat, p: Packet)
    requires Prints(Concat(BaseParts(h, ipv6)), lines, end, depth, p, env)
    requires Base(h) in env.chains && env.chains[Base(h)] == BaseChain(h, ipv6)
    ensures ChainLines(env.chains[Base(h)], depth, p, env, 0) == lines
  {
    hide ChainLines, RunChain, Concat, BaseParts;
    assert EndsAs(RunChain(Concat(BaseParts(h, ipv6)), depth, p, env, 0), end);
  }

  // The chains around the user rules.
  lemma HeadPrints(env: Env, st: State, pol: Policy, ipv6: bool, h: Hook, rate: bool, depth: nat, p: Packet)
    returns (r: bool, k: bool)
    requires HookLoaded(env, st, pol, ipv6, h) && p.Valid() && depth >= 3 && Steady(env, rate)
    ensures Prints(Guards(h, ipv6), [], EndFor(GuardDecision(h, ipv6, p)), depth, p, env)
    ensures Prints(JumpTo(BeforeLogging(h)), AuditLines(st.logging, p, rate), Falls, depth, p, env)
    ensures Prints(JumpTo(Before(h)), RefusalLines(h, st.logging, p, rate, env), EndFor(BeforeDecision(h, p, env)),
                   depth, p, env)
    ensures Prints(JumpTo(After(h)), [], if Unlisted(h, p) then Done else Falls, depth, p, env)
    ensures Prints(JumpTo(AfterLogging(h)), PolicyLines(st.logging, pol, rate), Falls, depth, p, env)
    ensures Prints(JumpTo(RejectChain(h)), [], if r then Done else Falls, depth, p, env)
    ensures Prints(JumpTo(Track(h)), [], if k then Done else Falls, depth, p, env)
  {
    hide Prints, Steady, Guards, GuardDecision, BeforeChain, BeforeDecision, AfterChain, TrackRules, RejectRules,
         SkipRules, BeforeLoggingRules, AfterLoggingRules, RefusalLines, BeforeLines, BeforeClauses, Unlisted,
         BaseChain, BeforeLoaded, Mute, Settles, LinesTo, JumpTo, BaseParts, Passes;
    GuardsSettle(h, ipv6, depth, p, env);
    MuteBase(h, ipv6);
    MuteSettles(Guards(h, ipv6), GuardDecision(h, ipv6, p), depth, p, env);
    BeforeLoggingPrints(st.logging, rate, depth - 1, p, env);
    JumpPrints(BeforeLogging(h), AuditLines(st.logging, p, rate), Falls, rate, depth, p, env);
    BeforePrints(h, st.logging, rate, depth - 1, p, env);
    RefusalsAre(h, st.logging, p, rate, env);
    JumpPrints(Before(h), RefusalLines(h, st.logging, p, rate, env), EndFor(BeforeDecision(h, p, env)), rate, depth, p,
               env);
    AfterPrints(h, pol, rate, depth - 1, p, env);
    JumpPrints(After(h), [], if Unlisted(h, p) then Done else Falls, rate, depth, p, env);
    AfterLoggingPrints(st.logging, pol, rate, depth - 1, p, env);
    JumpPrints(AfterLogging(h), PolicyLines(st.logging, pol, rate), Falls, rate, depth, p, env);
    MuteTail(pol);
    r := pol == RejectPolicy;
    RejectSettles(pol, depth - 1, p, env);
    MuteSettles(RejectRules(pol), When(r, Rejected), depth - 1, p, env);
    JumpPrints(RejectChain(h), [], if r then Done else Falls, rate, depth, p, env);
    TrackSettles(pol, depth - 1, p, env);
    k :| Settles(TrackRules(pol), When(k, PolicyVerdict(pol)), depth - 1, p, env);
    MuteSettles(TrackRules(pol), When(k, PolicyVerdict(pol)), depth - 1, p, env);
    JumpPrints(Track(h), [], if k then Done else Falls, rate, depth, p, env);
  }

  lemma EightLines(ds: seq<Option<Decision>>, audit: seq<string>, refused: seq<string>, user: seq<string>,
      after: seq<string>)
    requires |ds| == 8 && ds[1].None? && ds[5].None?
    ensures LinesTo([[], audit, refused, user, [], after, [], []], ds) ==
            if ds[0].Some? then []
            else audit + (refused + if ds[2].Some? then []
                          else user + if ds[3].Some? || ds[4].Some? then [] else after)
  {
    var none: seq<string> := [];
    var ls := [none, audit, refused, user, none, after, none, none];
    NoLines(ls[6..], ds[6..]);
    assert LinesTo(ls[5..], ds[5..]) == after by {
      assert ls[5..][1..] == ls[6..] && ds[5..][1..] == ds[6..] && after + none == after;
    }
    var four := LinesTo(ls[4..], ds[4..]);
    assert four == if ds[4].Some? then none else after by {
      assert ls[4..][1..] == ls[5..] && ds[4..][1..] == ds[5..] && none + after == after && none + none == none;
    }
    var three := LinesTo(ls[3..], ds[3..]);
    assert three == user + (if ds[3].Some? || ds[4].Some? then none else after) by {
      assert ls[3..][1..] == ls[4..] && ds[3..][1..] == ds[4..];
    }
    var two := LinesTo(ls[2..], ds[2..]);
    assert two == refused + (if ds[2].Some? then none else three) by {
      assert ls[2..][1..] == ls[3..] && ds[2..][1..] == ds[3..];
    }
    assert LinesTo(ls[1..], ds[1..]) == audit + two by {
      assert ls[1..][1..] == ls[2..] && ds[1..][1..] == ds[2..];
    }
    assert none + (audit + two) == audit + two && none + none == none;
  }

  // Level off: nothing is logged, whatever the rules say.
  lemma {:induction false} OffIsSilent(st: State, pol: Policy, ipv6: bool, h: Hook, now: int, rate: bool, p: Packet,
      env: Env)
    requires p.Valid() && forall r :: r in (if p.v6 then st.rules6 else st.rules4) ==> r.Valid()
    requires st.logging == Off
    ensures HookLines(st, pol, ipv6, h, now, rate, p, env) == []
  {
    hide FirstHit, FirstSpeaker, BeforeDecision, BeforeClauses, GuardDecision, Unlisted, Exceeded, Rule.Valid;
    var none: seq<string> := [];
    assert none + none == none;
  }
}
