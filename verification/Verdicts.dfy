/** What the compiled ruleset decides, written out on the fields of the state,
    the defaults file and the packet. */
module Verdicts {
  import opened Bytes
  import opened AddressSets
  import opened Outcomes
  import opened Rules
  import opened Netfilter
  import opened Matching
  import opened RuleCompiler
  import opened BuiltinChains
  import opened Compiler

  // ---- policies ----

  // The word the defaults file gives for a hook, if it is one of the three.
  function Recognised(word: Option<Policy>): Option<Policy>
  {
    if word == Some(AllowPolicy) || word == Some(DenyPolicy) || word == Some(RejectPolicy) then word else None
  }

  function StoredAt(st: State, h: Hook): Policy
  {
    match h
    case Input => st.policies.input
    case Output => st.policies.output
    case ForwardHook => st.policies.forward
  }

  function WordAt(etc: Etc, h: Hook): Option<Policy>
  {
    match h
    case Input => etc.input
    case Output => etc.output
    case ForwardHook => etc.forward
  }

  // The policy in force at a hook: a recognised word wins over the stored one.
  function InForce(st: State, etc: Etc, h: Hook): Policy
  {
    if Recognised(WordAt(etc, h)).Some? then Recognised(WordAt(etc, h)).value else StoredAt(st, h)
  }

  // What happens to a packet that nothing else decides.
  function Fallback(st: State, etc: Etc, h: Hook): Decision
  {
    match InForce(st, etc, h)
    case AllowPolicy => Accepted
    case RejectPolicy => Rejected
    case DenyPolicy => Dropped
    case OtherPolicy(_) => Dropped
  }

  // The kernel only knows accept and drop.
  function KernelPolicy(st: State, etc: Etc, h: Hook): Decision
  {
    if InForce(st, etc, h) == AllowPolicy then Accepted else Dropped
  }

  function Ipv6On(st: State, etc: Etc): bool
  {
    match etc.ipv6
    case Some(on) => on
    case None => st.ipv6
  }

  lemma {:induction false} PoliciesInForce(st: State, etc: Etc, h: Hook)
    ensures PolicyVerdict(EffectivePolicies(st, etc).Get(h)) == Fallback(st, etc, h)
    ensures BasePolicy(EffectivePolicies(st, etc).Get(h)) == KernelPolicy(st, etc, h)
    ensures EffectiveIpv6(st, etc) == Ipv6On(st, etc)
  {
  }

  // ---- packets the built-in rules know ----

  function LoName(): Name { [108, 111] }

  predicate Icmp4(p: Packet, types: set<int>) { !p.v6 && p.l4 == 1 && |p.th| >= 1 && p.th[0] as int in types }

  predicate Icmp6(p: Packet, types: set<int>) { p.v6 && p.l4 == 58 && |p.th| >= 1 && p.th[0] as int in types }

  // The source is in fe80::/10.
  predicate FromLinkLocal(p: Packet)
    requires |p.nh| >= 40
  {
    p.nh[8] == 254 && 128 <= p.nh[9] < 192
  }

  predicate ToLinkLocal(p: Packet)
    requires |p.nh| >= 40
  {
    p.nh[24] == 254 && 128 <= p.nh[25] < 192
  }

  // Section 4.3.1 of RFC 4890: errors and echo requests; neighbour
  // messages from next door; listener and router messages of the link.
  predicate Welcome6(p: Packet)
    requires p.v6 ==> |p.nh| >= 40
  {
    || Icmp6(p, {1, 2, 3, 4, 128})
    || (Icmp6(p, {133, 134, 135, 136, 141, 142, 148, 149}) && p.nh[7] == 255)
    || (Icmp6(p, {130, 131, 132, 143}) && FromLinkLocal(p))
    || (Icmp6(p, {151, 152, 153}) && FromLinkLocal(p) && p.nh[7] == 1)
  }

  predicate DhcpReply(p: Packet)
    requires p.v6 ==> |p.nh| >= 40
  {
    p.l4 == 17 && if p.v6 then p.Sport() == Some(547) && p.Dport() == Some(546) && FromLinkLocal(p) && ToLinkLocal(p)
                  else p.Sport() == Some(67) && p.Dport() == Some(68)
  }

  // Multicast DNS on port 5353 and device discovery on port 1900.
  predicate Discovery(p: Packet)
    requires |p.nh| >= if p.v6 then 40 else 20
  {
    && p.l4 == 17
    && (p.Dport() == Some(5353) ==>
          p.Daddr() == if p.v6 then [255, 2, 0, 0, 0, 0, 0, 0, 0, 0, 0, 0, 0, 0, 0, 251] else [224, 0, 0, 251])
    && (p.Dport() == Some(1900) ==>
          p.Daddr() == if p.v6 then [255, 2, 0, 0, 0, 0, 0, 0, 0, 0, 0, 0, 0, 0, 0, 15] else [239, 255, 255, 250])
    && (p.Dport() == Some(5353) || p.Dport() == Some(1900))
  }

  // What happens to a packet before any rule of the user is looked at.
  function InputHead(p: Packet, banned: bool): Option<Decision>
    requires |p.nh| >= if p.v6 then 40 else 20
  {
    if p.iif == LoName() then Some(Accepted)
    else if p.v6 && p.rtType == Some(0) then Some(Dropped)
    else if banned then Some(Dropped)
    else if p.ct == Established || p.ct == Related then Some(Accepted)
    else if Icmp6(p, {129}) then Some(Accepted)
    else if p.ct == CtState.Invalid then Some(Dropped)
    else if Icmp4(p, {3, 8, 11, 12}) || Welcome6(p) || Icmp6(p, {144, 145, 146, 147}) then Some(Accepted)
    else if DhcpReply(p) then Some(Accepted)
    else if !p.v6 && p.fib != 2 && p.fib != 3 && p.fib != 5 then Some(Dropped)
    else if Discovery(p) then Some(Accepted)
    else None
  }

  function OutputHead(p: Packet): Option<Decision>
    requires p.v6 ==> |p.nh| >= 40
  {
    if p.oif == LoName() then Some(Accepted)
    else if p.v6 && p.rtType == Some(0) then Some(Dropped)
    else if p.ct == Established || p.ct == Related then Some(Accepted)
    else if Welcome6(p) || Icmp6(p, {129}) then Some(Accepted)
    else None
  }

  function ForwardHead(p: Packet, banned: bool): Option<Decision>
  {
    if p.v6 && p.rtType == Some(0) then Some(Dropped)
    else if banned then Some(Dropped)
    else if p.ct == Established || p.ct == Related then Some(Accepted)
    else if Icmp4(p, {3, 8, 11, 12}) || Icmp6(p, {1, 2, 3, 4, 128, 129}) then Some(Accepted)
    else None
  }

  // With IPv6 off only loopback traffic passes.
  function HeadOf(h: Hook, on: bool, p: Packet, banned: bool): Option<Decision>
    requires |p.nh| >= if p.v6 then 40 else 20
  {
    if p.v6 && !on then
      if (h == Input && p.iif == LoName()) || (h == Output && p.oif == LoName()) then Some(Accepted) else Some(Dropped)
    else
      match h
      case Input => InputHead(p, banned)
      case Output => OutputHead(p)
      case ForwardHook => ForwardHead(p, banned)
  }

  lemma LinkLocalBytes(x: seq<byte>)
    requires |x| == 16
    ensures LINK_LOCAL.Valid() && (LINK_LOCAL.Contains(x) <==> x[0] == 254 && 128 <= x[1] < 192)
  {
    hide SamePrefix, Mask, CidrMask, Pow2;
    var y := LINK_LOCAL.net.addr;
    MaskEqIsSamePrefix(x, y, 10);
    TenBits(x);
    TenBits(y);
    var mx, my := Mask(x, CidrMask(10, 16)), Mask(y, CidrMask(10, 16));
    assert mx == my <==> forall i :: 0 <= i < 16 ==> mx[i] == my[i];
    DivModIdentity(x[1], 64);
  }

  lemma TenBits(x: seq<byte>)
    requires |x| == 16
    ensures var m := Mask(x, CidrMask(10, 16));
            m[0] == x[0] && m[1] == x[1] - x[1] % 64 && forall i :: 2 <= i < 16 ==> m[i] == 0
  {
    hide And8, MaskByte, Pow2;
    Pow2Of8();
    SmallPowers();
    And8Leading(x[0], 8);
    And8Leading(x[1], 2);
    forall i | 2 <= i < 16 ensures Mask(x, CidrMask(10, 16))[i] == 0 { And8Leading(x[i], 0); }
  }

  lemma SmallPowers()
    ensures Pow2(0) == 1 && Pow2(6) == 64
  {
  }

  // ---- the built-in chains on those packets ----

  lemma Errors4Means(p: Packet)
    ensures AnyIcmp(false, ERRORS4, p) <==> Icmp4(p, {3, 8, 11, 12})
  {
    assert ERRORS4[0] == 3 && ERRORS4[1] == 11 && ERRORS4[2] == 12 && ERRORS4[3] == 8;
    assert forall t :: t in ERRORS4 <==> t == 3 || t == 11 || t == 12 || t == 8;
    if Icmp4(p, {3, 8, 11, 12}) { assert p.th[0] in ERRORS4 && IsIcmp(p, false, p.th[0]); }
  }

  lemma Reply6Means(p: Packet)
    ensures AnyIcmp(true, REPLY6, p) <==> Icmp6(p, {129})
  {
    assert REPLY6[0] == 129;
    assert forall t :: t in REPLY6 <==> t == 129;
    if Icmp6(p, {129}) { assert p.th[0] in REPLY6 && IsIcmp(p, true, p.th[0]); }
  }

  lemma Mobile6Means(p: Packet)
    ensures AnyIcmp(true, MOBILE6, p) <==> Icmp6(p, {144, 145, 146, 147})
  {
    assert MOBILE6[0] == 144 && MOBILE6[1] == 145 && MOBILE6[2] == 146 && MOBILE6[3] == 147;
    assert forall t :: t in MOBILE6 <==> t == 144 || t == 145 || t == 146 || t == 147;
    if Icmp6(p, {144, 145, 146, 147}) { assert p.th[0] in MOBILE6 && IsIcmp(p, true, p.th[0]); }
  }

  lemma AnyBoth(a: seq<BuiltinChains.Icmp6>, b: seq<BuiltinChains.Icmp6>, p: Packet)
    requires p.Valid()
    ensures AnyIcmp6(a + b, p) <==> AnyIcmp6(a, p) || AnyIcmp6(b, p)
  {
    hide Icmp6Holds;
    assert forall r :: r in a + b <==> r in a || r in b;
  }

  lemma AnyOne(r: BuiltinChains.Icmp6, p: Packet)
    requires p.Valid()
    ensures AnyIcmp6([r], p) <==> Icmp6Holds(r, p)
  {
    hide Icmp6Holds;
    assert forall x :: x in [r] <==> x == r;
  }

  lemma AnySix(a: BuiltinChains.Icmp6, b: BuiltinChains.Icmp6, c: BuiltinChains.Icmp6, d: BuiltinChains.Icmp6,
               e: BuiltinChains.Icmp6, p: Packet)
    requires p.Valid()
    ensures AnyIcmp6([a, b, c, d, e], p) <==>
            Icmp6Holds(a, p) || Icmp6Holds(b, p) || Icmp6Holds(c, p) || Icmp6Holds(d, p) || Icmp6Holds(e, p)
  {
    hide Icmp6Holds;
    var s := [a, b, c, d, e];
    assert s[0] == a && s[1] == b && s[2] == c && s[3] == d && s[4] == e;
    assert forall x :: x in s <==> x == a || x == b || x == c || x == d || x == e;
  }

  lemma HeadMeans(p: Packet)
    requires p.Valid()
    ensures AnyIcmp6(V6_HEAD, p) <==> Icmp6(p, {1, 2, 3, 4, 128})
  {
    AnySix(BuiltinChains.Plain(1), BuiltinChains.Plain(2), BuiltinChains.Plain(3), BuiltinChains.Plain(4),
           BuiltinChains.Plain(128), p);
  }

  lemma TailMeans(p: Packet)
    requires p.Valid()
    ensures AnyIcmp6(V6_TAIL, p) <==>
            || (Icmp6(p, {133, 134, 135, 136, 141, 142, 148, 149}) && p.nh[7] == 255)
            || (Icmp6(p, {130, 131, 132, 143}) && FromLinkLocal(p))
            || (Icmp6(p, {151, 152, 153}) && FromLinkLocal(p) && p.nh[7] == 1)
  {
    hide Icmp6Holds;
    var a := [Hop255(133), Hop255(134), Hop255(135), Hop255(136), Hop255(141)];
    var b := [Hop255(142), Listener(130), Listener(131), Listener(132), Listener(143)];
    var c := [Hop255(148), Hop255(149), Router(151), Router(152), Router(153)];
    assert V6_TAIL == a + (b + c);
    AnyBoth(a, b + c, p);
    AnyBoth(b, c, p);
    AnySix(Hop255(133), Hop255(134), Hop255(135), Hop255(136), Hop255(141), p);
    AnySix(Hop255(142), Listener(130), Listener(131), Listener(132), Listener(143), p);
    AnySix(Hop255(148), Hop255(149), Router(151), Router(152), Router(153), p);
    hide AnyIcmp6;
    HopMeans(p);
    LinkMeans(p);
  }

  lemma HopMeans(p: Packet)
    requires p.Valid()
    ensures forall t: byte :: Icmp6Holds(Hop255(t), p) <==> Icmp6(p, {t as int}) && p.nh[7] == 255
  {
    hide SamePrefix;
  }

  lemma LinkMeans(p: Packet)
    requires p.Valid()
    ensures forall t: byte :: Icmp6Holds(Listener(t), p) <==> Icmp6(p, {t as int}) && FromLinkLocal(p)
    ensures forall t: byte :: Icmp6Holds(Router(t), p) <==> Icmp6(p, {t as int}) && FromLinkLocal(p) && p.nh[7] == 1
  {
    hide SamePrefix;
    if p.v6 { LinkLocalBytes(p.Saddr()); }
  }

  lemma WelcomeMeans(p: Packet)
    requires p.Valid()
    ensures AnyIcmp6(V6_HEAD + V6_TAIL, p) <==> Welcome6(p)
    ensures AnyIcmp6(V6_HEAD + [BuiltinChains.Plain(129)] + V6_TAIL, p) <==> Welcome6(p) || Icmp6(p, {129})
    ensures AnyIcmp6(V6_HEAD + [BuiltinChains.Plain(129)], p) <==> Icmp6(p, {1, 2, 3, 4, 128, 129})
  {
    AnyBoth(V6_HEAD, V6_TAIL, p);
    AnyBoth(V6_HEAD, [BuiltinChains.Plain(129)], p);
    AnyBoth(V6_HEAD + [BuiltinChains.Plain(129)], V6_TAIL, p);
    AnyOne(BuiltinChains.Plain(129), p);
    HeadMeans(p);
    TailMeans(p);
    hide AnyIcmp6;
  }

  lemma DhcpMeans(p: Packet)
    requires p.Valid()
    ensures IsDhcp(p) <==> DhcpReply(p)
  {
    hide SamePrefix;
    if p.v6 {
      LinkLocalBytes(p.Saddr());
      LinkLocalBytes(p.Daddr());
    }
  }

  lemma DiscoveryMeans(p: Packet)
    requires p.Valid()
    ensures true in MulticastConds(p) <==> Discovery(p)
  {
    hide Packet.Saddr, Packet.Daddr, Packet.Sport, Packet.Dport;
    var cs := MulticastConds(p);
    assert true in cs <==> cs[0] || cs[1] || cs[2] || cs[3];
  }

  // ---- chains of alternatives ----

  lemma FirstFour(a: Option<Decision>, b: Option<Decision>, c: Option<Decision>, d: Option<Decision>,
                  rest: seq<Option<Decision>>)
    ensures FirstOf([a, b, c, d] + rest) == Or(a, Or(b, Or(c, Or(d, FirstOf(rest)))))
  {
    hide FirstOf;
    assert [a, b, c, d] + rest == [a] + ([b] + ([c] + ([d] + rest)));
    FirstOfCons(a, [b] + ([c] + ([d] + rest)));
    FirstOfCons(b, [c] + ([d] + rest));
    FirstOfCons(c, [d] + rest);
    FirstOfCons(d, rest);
  }

  lemma FirstTwelve(cs: seq<Option<Decision>>)
    requires |cs| == 12
    ensures FirstOf(cs) ==
            Or(cs[0], Or(cs[1], Or(cs[2], Or(cs[3], Or(cs[4], Or(cs[5], Or(cs[6], Or(cs[7],
            Or(cs[8], Or(cs[9], Or(cs[10], cs[11])))))))))))
  {
    hide FirstOf;
    var last := [cs[8], cs[9], cs[10], cs[11]] + [];
    var middle := [cs[4], cs[5], cs[6], cs[7]] + last;
    assert cs == [cs[0], cs[1], cs[2], cs[3]] + middle;
    FirstFour(cs[0], cs[1], cs[2], cs[3], middle);
    FirstFour(cs[4], cs[5], cs[6], cs[7], last);
    FirstFour(cs[8], cs[9], cs[10], cs[11], []);
    FirstNothing();
  }

  lemma InputMeans(p: Packet, env: Env)
    requires p.Valid()
    ensures BeforeDecision(Input, p, env) == InputHead(p, Banned(p, env))
  {
    hide FirstOf, AnyIcmp, AnyIcmp6, Banned, IsDhcp, MulticastConds, Icmp4, Icmp6, Welcome6, DhcpReply, Discovery;
    FirstTwelve(BeforeClauses(Input, p, env));
    Reply6Means(p);
    Errors4Means(p);
    WelcomeMeans(p);
    Mobile6Means(p);
    DhcpMeans(p);
    DiscoveryMeans(p);
  }

  lemma FirstNothing()
    ensures FirstOf([]) == None
  {
  }

  lemma OutputMeans(p: Packet, env: Env)
    requires p.Valid()
    ensures BeforeDecision(Output, p, env) == OutputHead(p)
  {
    hide FirstOf, AnyIcmp6, Icmp6, Welcome6;
    var cs := BeforeClauses(Output, p, env);
    assert cs == [cs[0], cs[1], cs[2], cs[3]] + [cs[4]] && [cs[4]] == [cs[4]] + [];
    FirstFour(cs[0], cs[1], cs[2], cs[3], [cs[4]]);
    FirstOfCons(cs[4], []);
    FirstNothing();
    WelcomeMeans(p);
  }

  lemma ForwardMeans(p: Packet, env: Env)
    requires p.Valid()
    ensures BeforeDecision(ForwardHook, p, env) == ForwardHead(p, Banned(p, env))
  {
    hide FirstOf, AnyIcmp, AnyIcmp6, Banned, Icmp4, Icmp6;
    var cs := BeforeClauses(ForwardHook, p, env);
    assert cs == [cs[0], cs[1], cs[2], cs[3]] + [cs[4]] && [cs[4]] == [cs[4]] + [];
    FirstFour(cs[0], cs[1], cs[2], cs[3], [cs[4]]);
    FirstOfCons(cs[4], []);
    FirstNothing();
    Errors4Means(p);
    WelcomeMeans(p);
  }

  // Guard and before chain together.
  lemma {:induction false} HeadsMean(h: Hook, on: bool, p: Packet, env: Env)
    requires p.Valid()
    ensures Or(GuardDecision(h, on, p), BeforeDecision(h, p, env)) == HeadOf(h, on, p, Banned(p, env))
  {
    hide BeforeDecision, InputHead, OutputHead, ForwardHead, Banned;
    match h
    case Input => InputMeans(p, env);
    case Output => OutputMeans(p, env);
    case ForwardHook => ForwardMeans(p, env);
  }

  // ---- the verdict ----

  // What a rule's action does to a packet it matches; a limit rejects new
  // connections above its meter.
  lemma {:induction false} ActionsMean(r: Rule, p: Packet, env: Env)
    ensures r.action == Allow ==> ActionDecision(r, p, env) == Accepted
    ensures r.action == Deny ==> ActionDecision(r, p, env) == Dropped
    ensures r.action == Reject ==> ActionDecision(r, p, env) == Rejected
    ensures r.action == Limit && p.ct != New ==> ActionDecision(r, p, env) == Accepted
    ensures r.action == Limit ==> ActionDecision(r, p, env) in {Accepted, Rejected}
    ensures r.direction == In ==> HookOf(r.direction) == Input
    ensures r.direction == Out ==> HookOf(r.direction) == Output
    ensures r.direction == Routed ==> HookOf(r.direction) == ForwardHook
    ensures forall now :: r.Active(now) <==> !r.disabled && (r.expiresAt == 0 || now < r.expiresAt)
  {
  }

  lemma {:induction false} ProtocolNumbers()
    ensures ProtoNum(Tcp) == Some(6) && ProtoNum(Udp) == Some(17) && ProtoNum(Icmp) == Some(1)
    ensures ProtoNum(Icmpv6) == Some(58)
    ensures ProtoNum(Ah) == Some(51) && ProtoNum(Esp) == Some(50) && ProtoNum(Gre) == Some(47)
    ensures ProtoNum(Igmp) == Some(2)
    ensures ProtoNum(Ipv6) == Some(41) && ProtoNum(Vrrp) == Some(112)
  {
  }

  // The built-in head, then the first active rule of the packet's list whose
  // compiled match holds, then the policy in force.
  ghost function VerdictFor(st: State, etc: Etc, now: int, h: Hook, p: Packet, env: Env): Decision
    requires p.Valid() && AllCompilable(st.rules4) && AllCompilable(st.rules6)
  {
    var rules := if p.v6 then st.rules6 else st.rules4;
    assert forall r :: r in rules ==> Compilable(r) && r.Valid();
    var head := HeadOf(h, Ipv6On(st, etc), p, Banned(p, env));
    var rule := CompiledFirst(rules, h, now, p, env);
    if head.Some? then head.value else if rule.Some? then rule.value else Fallback(st, etc, h)
  }

  // The chains and kernel policies decide every packet so.
  ghost predicate Decides(chains: map<Chain, seq<NftRule>>, sets: Sets, policies: map<Hook, Decision>, st: State,
                          etc: Etc, now: int)
  {
    AllCompilable(st.rules4) && AllCompilable(st.rules6) ==>
      forall env: Env, h: Hook, depth: nat, p: Packet ::
        env.chains == chains && env.sets == sets && depth >= 3 && p.Valid() ==>
          VerdictIs(env, policies, st, etc, now, h, depth, p)
  }

  ghost predicate VerdictIs(env: Env, policies: map<Hook, Decision>, st: State, etc: Etc, now: int, h: Hook, depth: nat,
                            p: Packet)
    requires p.Valid() && AllCompilable(st.rules4) && AllCompilable(st.rules6)
  {
    && h in policies && Base(h) in env.chains
    && RunBase(h, policies[h], depth, p, env) == Some(VerdictFor(st, etc, now, h, p, env))
  }

  // A state that compiled, from its own fields.
  lemma {:induction false} VerdictOnFields(env: Env, st: State, etc: Etc, now: int, prog: Program, h: Hook,
      depth: nat, p: Packet)
    requires Loaded(env.chains, env.sets, st, EffectivePolicies(st, etc), EffectiveIpv6(st, etc), now, prog)
    requires p.Valid() && depth >= 3 && AllCompilable(st.rules4) && AllCompilable(st.rules6)
    ensures RunBase(h, KernelPolicy(st, etc, h), depth, p, env) ==
            Some(VerdictFor(st, etc, now, h, p, env))
  {
    hide Loaded, RunBase, CompiledFirst, FirstOf, BeforeDecision, GuardDecision, HeadOf, Banned, PolicyVerdict,
         BasePolicy, EffectivePolicies, EffectiveIpv6, KernelPolicy, Fallback, Ipv6On, Policies.Get, IfacePattern,
         Rule.Valid;
    var pol, on := EffectivePolicies(st, etc), EffectiveIpv6(st, etc);
    var rules := if p.v6 then st.rules6 else st.rules4;
    assert forall r :: r in rules ==> r.Valid();
    CompiledBaseVerdict(env, st, pol, on, now, prog, h, depth, p);
    PoliciesInForce(st, etc, h);
    HeadsMean(h, on, p, env);
    var user := CompiledFirst(rules, h, now, p, env);
    assert [GuardDecision(h, on, p), BeforeDecision(h, p, env), user] ==
           [GuardDecision(h, on, p)] + ([BeforeDecision(h, p, env)] + ([user] + []));
    FirstOfCons(GuardDecision(h, on, p), [BeforeDecision(h, p, env)] + ([user] + []));
    FirstOfCons(BeforeDecision(h, p, env), [user] + []);
    FirstOfCons(user, []);
    FirstNothing();
  }

  // Kernel policies taken from the effective ones decide so.
  lemma PoliciesDecide(chains: map<Chain, seq<NftRule>>, sets: Sets, policies: map<Hook, Decision>, st: State, etc: Etc,
                       now: int, prog: Program)
    requires Loaded(chains, sets, st, EffectivePolicies(st, etc), EffectiveIpv6(st, etc), now, prog)
    requires forall h :: h in policies && policies[h] == BasePolicy(EffectivePolicies(st, etc).Get(h))
    ensures Decides(chains, sets, policies, st, etc, now)
    ensures forall h :: h in policies && policies[h] == KernelPolicy(st, etc, h)
  {
    hide Loaded, VerdictIs, EffectivePolicies, EffectiveIpv6, BasePolicy, KernelPolicy, AllCompilable;
    forall h ensures policies[h] == KernelPolicy(st, etc, h) { PoliciesInForce(st, etc, h); }
    if AllCompilable(st.rules4) && AllCompilable(st.rules6) {
      forall env: Env, h: Hook, depth: nat, p: Packet |
        env.chains == chains && env.sets == sets && depth >= 3 && p.Valid()
        ensures VerdictIs(env, policies, st, etc, now, h, depth, p)
      {
        HookDecides(env, policies, st, etc, now, prog, h, depth, p);
      }
    }
  }

  lemma HookDecides(env: Env, policies: map<Hook, Decision>, st: State, etc: Etc, now: int, prog: Program, h: Hook,
                    depth: nat, p: Packet)
    requires Loaded(env.chains, env.sets, st, EffectivePolicies(st, etc), EffectiveIpv6(st, etc), now, prog)
    requires p.Valid() && depth >= 3 && AllCompilable(st.rules4) && AllCompilable(st.rules6)
    requires h in policies && policies[h] == KernelPolicy(st, etc, h)
    ensures VerdictIs(env, policies, st, etc, now, h, depth, p)
  {
    hide Loaded, RunBase, VerdictFor, EffectivePolicies, EffectiveIpv6, KernelPolicy, AllCompilable;
    ChainsOf(env, st, EffectivePolicies(st, etc), EffectiveIpv6(st, etc), now, prog, h);
    VerdictOnFields(env, st, etc, now, prog, h, depth, p);
  }

  // Some unexpired ban lists the address.
  ghost predicate UnderLiveBan(bans: seq<Compiler.Ban>, now: int, x: seq<byte>)
  {
    exists b :: && b in bans && now < b.expiresAt && b.source.Some? && b.source.value.Valid()
                && b.source.value.Contains(x)
  }

  lemma ListedLive(bans: seq<Compiler.Ban>, now: int, x: seq<byte>)
    requires ValidSources(LiveBans(bans, now))
    ensures Listed(LiveBans(bans, now), x) <==> UnderLiveBan(bans, now, x)
  {
    hide LiveBans, Net.Contains, Net.Valid;
    var live := LiveBans(bans, now);
    if Listed(live, x) {
      var i :| 0 <= i < |live| && live[i].Some? && live[i].value.Contains(x);
      assert live[i] in live;
    }
    if UnderLiveBan(bans, now, x) {
      var b :| b in bans && now < b.expiresAt && b.source.Some? && b.source.value.Valid() && b.source.value.Contains(x);
      assert b.source in live;
      var i :| 0 <= i < |live| && live[i] == b.source;
    }
  }

  // In a loaded state a packet is banned when an unexpired ban lists its
  // source.
  lemma {:induction false} BansMean(env: Env, st: State, pol: Policies, ipv6: bool, now: int, prog: Program, p: Packet)
    requires Loaded(env.chains, env.sets, st, pol, ipv6, now, prog) && p.Valid()
    requires ValidSources(LiveBans(st.bans, now)) && BelowTop(LiveBans(st.bans, now), if p.v6 then 16 else 4)
    ensures Banned(p, env) <==> UnderLiveBan(st.bans, now, p.Saddr())
  {
    hide Loaded, CompileRules, Listed, BelowTop, Encodes, SetBody.Has, ValidSources, Packet.Saddr, UserStart, LiveBans,
         UnderLiveBan;
    ChainsOf(env, st, pol, ipv6, now, prog, Input);
    var sets, id, four := UserSource(env, st, pol, ipv6, now, prog);
    AddressSetsKept(st, now, sets, id, four, prog);
    assert ThreatBans(p.v6) in sets;
    LiveSetHas(sets[ThreatBans(p.v6)], LiveBans(st.bans, now), p);
    ListedLive(st.bans, now, p.Saddr());
  }

  // The rules that compile: inactive ones, and those with a known action
  // whose protocol has a number and fits the family, without ports for
  // ICMP, and an ICMP type only under ICMP.
  lemma {:induction false} CompilesMean(r: Rule, v6: bool, now: int)
    ensures RuleCompiles(r, v6, now) <==>
            (r.Active(now) ==>
               && !r.action.OtherAction?
               && r.proto in {NoProto, AnyProto, Tcp, Udp, Icmp, Icmpv6, Ah, Esp, Gre, Igmp, Ipv6, Vrrp}
               && (r.proto == Icmp ==> !v6) && (r.proto == Icmpv6 ==> v6)
               && (r.proto == Icmp || r.proto == Icmpv6 ==> r.src.ports == [] && r.dst.ports == [])
               && (r.icmpType.Some? ==> (r.proto == Icmp || r.proto == Icmpv6) && r.icmpType.value <= 255))
  {
    hide HasTcp, HasUdp;
    assert |Variants(r)| > 0 && Variants(r)[0] in Variants(r);
  }
}
