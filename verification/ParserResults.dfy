/** Which rules the parser returns, and that echoing one and parsing the echo
    gives it back exactly when its direction is the one its command conveys. */
module ParserResults {
  import opened Bytes
  import opened AddressSets
  import opened Outcomes
  import opened Rules
  import opened Prefixes
  import opened Normalization
  import opened Grammar
  import opened CanonicalCommand
  import CommandEcho

  // Address tokens hold addresses of either family.
  ghost predicate Tidy(argv: seq<Tok>)
  {
    forall i :: 0 <= i < |argv| && argv[i].Address? ==> argv[i].addr.Valid()
  }

  // ---- the rule while it is read ----

  ghost predicate EndDraft(a: AddrSpec)
  {
    && (if a.setName != "" then a.ip == NoAddr else a.ip == AnyAddr || a.ip.Host? || a.ip.Cidr?)
    && a.ip.Valid() && Separators(SpansOf(a.ports)) <= 14
    && forall i :: 0 <= i < |a.ports| ==> a.ports[i].proto == NoProto && 1 <= a.ports[i].lo <= a.ports[i].hi
  }

  ghost predicate Draft(start: Rule, r: Rule)
  {
    && r == start.(src := r.src, dst := r.dst, proto := r.proto, icmpType := r.icmpType, ifaceIn := r.ifaceIn,
    ifaceOut := r.ifaceOut)
    && EndDraft(r.src) && EndDraft(r.dst) && IfaceShape(r.ifaceIn) && IfaceShape(r.ifaceOut)
    && (r.proto == AnyProto || r.proto == Tcp || r.proto == Udp || Grammar.Portless(r.proto))
    && (r.icmpType.Some? ==> r.icmpType.value <= 255 && (r.proto == Icmp || r.proto == Icmpv6))
  }

  ghost predicate Reading(start: Rule, c: Clauses)
  {
    Draft(start, c.r) && c.fromType == EndType(c.r.src) && c.toType == EndType(c.r.dst)
  }

  lemma ProtoNames(text: string)
    requires ProtoOf(text).Some?
    ensures var q := ProtoOf(text).value; q == AnyProto || q == Tcp || q == Udp || Grammar.Portless(q)
  {
  }

  lemma NameText(s: string)
    requires IfaceText(s)
    ensures TextOf(NameOf(s)) == s
  {
    assert forall i :: 0 <= i < |s| ==> IfaceChar(s[i]);
    assert forall i :: 0 <= i < |s| ==> TextOf(NameOf(s))[i] == s[i];
  }

  lemma IfaceDraft(start: Rule, r: Rule, inbound: bool, t: Tok)
    requires Draft(start, r) && SetIface(r, inbound, t).Ok?
    ensures Draft(start, SetIface(r, inbound, t).value)
    ensures SetIface(r, inbound, t).value ==
            r.(ifaceIn := SetIface(r, inbound, t).value.ifaceIn, ifaceOut := SetIface(r, inbound, t).value.ifaceOut)
  {
    hide EndDraft, IfaceText;
    NameText(t.text);
  }

  lemma PortsDraft(a: AddrSpec, spans: seq<Span>)
    requires EndDraft(a) && SpansOk(spans)
    ensures EndDraft(a.(ports := Grammar.Ranges(spans, NoProto)))
            && EndType(a.(ports := Grammar.Ranges(spans, NoProto))) == EndType(a)
  {
    hide Separators;
    assert SpansOf(Grammar.Ranges(spans, NoProto)) == spans;
  }

  lemma AddrDraft(a: AddrSpec, t: Tok)
    requires EndDraft(a) && ParseAddr(t).Ok? && (t.Address? ==> t.addr.Valid())
    ensures var p := ParseAddr(t).value;
            EndDraft(a.(ip := p.0, setName := p.1)) && EndType(a.(ip := p.0, setName := p.1)) == p.2
  {
    hide Separators;
  }

  // One clause keeps the draft.
  lemma ClauseDraft(start: Rule, c: Clauses, key: Tok, v: Tok, seen: bool)
    requires Reading(start, c) && ClauseAt(c, key, Some(v), seen).Ok? && (v.Address? ==> v.addr.Valid())
    requires key == Word("proto") ==> c.r.icmpType == None
    ensures Reading(start, ClauseAt(c, key, Some(v), seen).value)
    ensures ClauseAt(c, key, Some(v), seen).value.r.icmpType.Some? ==> seen || c.r.icmpType.Some?
  {
    hide EndDraft, ParseAddr, IfaceShape, SetIface, ProtoOf, SpansOk, EndType;
    if key == Word("proto") {
      ProtoNames(v.text);
    } else if key == Word("in") || key == Word("out") {
      IfaceDraft(start, c.r, key == Word("in"), v);
    } else if key == Word("from") {
      AddrDraft(c.r.src, v);
    } else if key == Word("to") {
      AddrDraft(c.r.dst, v);
    } else if key == Word("port") {
      PortsDraft(EndOf(c.r, c.loc.value), v.spans);
    }
  }

  lemma {:induction false} OnlyOnce(argv: seq<Tok>, w: string, i: nat)
    requires i < |argv| && argv[i] == Word(w) && CountTok(argv, w) <= 1
    ensures Word(w) !in argv[..i]
  {
    if i > 0 {
      Occurs(argv[1..], w, i - 1);
      OnlyOnce(argv[1..], w, i - 1);
      assert argv[..i] == [argv[0]] + argv[1..][..i - 1];
    }
  }

  lemma {:induction false} Occurs(argv: seq<Tok>, w: string, i: nat)
    requires i < |argv| && argv[i] == Word(w)
    ensures CountTok(argv, w) >= 1
  {
    if i > 0 { Occurs(argv[1..], w, i - 1); }
  }

  lemma {:induction false} LoopDraft(start: Rule, argv: seq<Tok>, i: nat, c: Clauses)
    requires i <= |argv| && Tidy(argv) && CountTok(argv, "proto") <= 1
    requires Reading(start, c) && (c.r.icmpType.Some? ==> Word("proto") in argv[..i])
    requires ClauseLoop(argv, i, c).Ok?
    ensures Reading(start, ClauseLoop(argv, i, c).value)
    decreases |argv| - i
  {
    hide ClauseAt, Reading, IsKey, CountTok;
    if i < |argv| {
      assert argv[..i + 1] == argv[..i] + [argv[i]];
      if !IsKey(argv[i]) {
        LoopDraft(start, argv, i + 1, c);
      } else {
        var v := if i + 1 < |argv| then Some(argv[i + 1]) else None;
        var seen := Word("proto") in argv[..i];
        NeedsValue(c, argv[i], v, seen);
        if argv[i] == Word("proto") { OnlyOnce(argv, "proto", i); }
        ClauseDraft(start, c, argv[i], v.value, seen);
        LoopDraft(start, argv, i + 1, ClauseAt(c, argv[i], v, seen).value);
      }
    }
  }

  lemma NeedsValue(c: Clauses, key: Tok, v: Option<Tok>, seen: bool)
    requires ClauseAt(c, key, v, seen).Ok?
    ensures v.Some?
  {
  }

  lemma ShortDraft(start: Rule, r: Rule, t: Tok)
    requires Draft(start, r) && r.icmpType == None && ShortToken(r, t).Ok?
    ensures var q := ShortToken(r, t).value; Draft(start, q) && q.src == r.src && EndType(q.dst) == EndType(r.dst)
  {
    hide EndDraft, IfaceShape, ProtoOf, SpansOk, EndType;
    PortsDraft(r.dst, t.spans);
    if t.proto.Some? { ProtoNames(t.proto.value); }
  }

  lemma StartDraft(start: Rule)
    requires CommandEcho.Starts(start)
    ensures Draft(start, start) && EndType(start.src) == AnyType && EndType(start.dst) == AnyType
  {
  }

  // Every form of the body leaves a draft and the type of its addresses.
  lemma BodyDraft(start: Rule, argv: seq<Tok>, hasIface: bool)
    requires CommandEcho.Starts(start) && Tidy(argv) && BodyPass(start, argv, hasIface).Ok?
    ensures var b := BodyPass(start, argv, hasIface).value;
            Draft(start, b.0) && TypeOf(EndType(b.0.src), EndType(b.0.dst)) == Ok(b.1)
  {
    hide Draft, ClauseLoop, ShortToken, SetIface, CountTok, EndType, Tidy, CommandEcho.Starts;
    StartDraft(start);
    StartPlain(start);
    if |argv| == 2 {
      ShortDraft(start, start, argv[1]);
    } else if hasIface && |argv| == 4 {
      IfaceDraft(start, start, LowerIs(argv[1], "in"), argv[2]);
      ShortDraft(start, SetIface(start, LowerIs(argv[1], "in"), argv[2]).value, argv[3]);
    } else {
      LoopDraft(start, argv, 0, Clauses(start, None, AnyType, AnyType));
    }
  }

  lemma StartPlain(start: Rule)
    requires CommandEcho.Starts(start)
    ensures start.icmpType == None
  {
  }

  // ---- the finished rule ----

  function RangedCount(ports: seq<PortRange>): nat
  {
    if ports == [] then 0
    else RangedCount(ports[..|ports| - 1]) + if ports[|ports| - 1].lo != ports[|ports| - 1].hi then 1 else 0
  }

  lemma {:induction false} SeparatorCount(ports: seq<PortRange>)
    ensures Separators(SpansOf(ports)) == RangedCount(ports) + if ports == [] then 0 else |ports| - 1
  {
    if ports != [] {
      var n := |ports| - 1;
      SeparatorCount(ports[..n]);
      assert SpansOf(ports)[..n] == SpansOf(ports[..n]);
    }
  }

  lemma {:induction false} RangedInsert(s: seq<PortRange>, x: PortRange)
    ensures RangedCount(Normalization.Insert(s, x)) == RangedCount(s) + if x.lo != x.hi then 1 else 0
  {
    hide Before;
    if s == [] || !Before(x, s[|s| - 1]) {
      assert (s + [x])[..|s|] == s;
    } else {
      RangedInsert(s[..|s| - 1], x);
      var r := Normalization.Insert(s[..|s| - 1], x);
      assert (r + [s[|s| - 1]])[..|r|] == r;
    }
  }

  lemma {:induction false} RangedSort(ports: seq<PortRange>)
    ensures RangedCount(SortPorts(ports)) == RangedCount(ports)
  {
    hide Normalization.Insert;
    if ports != [] {
      var n := |ports| - 1;
      RangedSort(ports[..n]);
      RangedInsert(SortPorts(ports[..n]), ports[n]);
    }
  }

  lemma {:induction false} RangedStamp(ports: seq<PortRange>, q: Proto)
    ensures RangedCount(Stamp(ports, q)) == RangedCount(ports)
  {
    if ports != [] {
      var n := |ports| - 1;
      RangedStamp(ports[..n], q);
      assert Stamp(ports, q)[..n] == Stamp(ports[..n], q);
    }
  }

  function Finished(a: AddrSpec, q: Proto): AddrSpec
  {
    AddrSpec(CanonAddr(a), SortPorts(Stamp(a.ports, q)), a.setName)
  }

  lemma PortsFinished(ports: seq<PortRange>, q: Proto)
    requires Separators(SpansOf(ports)) <= 14
    requires forall i :: 0 <= i < |ports| ==> ports[i].proto == NoProto && 1 <= ports[i].lo <= ports[i].hi
    ensures var s := SortPorts(Stamp(ports, q));
            && |s| == |ports| && Separators(SpansOf(s)) <= 14 && Ordered(s) && Multi(s) == Multi(ports)
            && forall i :: 0 <= i < |s| ==> s[i].proto == q && 1 <= s[i].lo <= s[i].hi
  {
    hide Separators, Ordered, Before, SortPorts;
    var st := Stamp(ports, q);
    var s := SortPorts(st);
    SortMembers(st);
    SortOrdered(st);
    SeparatorCount(ports);
    SeparatorCount(s);
    RangedSort(st);
    RangedStamp(ports, q);
    forall i | 0 <= i < |s| ensures s[i].proto == q && 1 <= s[i].lo <= s[i].hi { assert s[i] in s; }
    if |ports| == 1 { assert s[0] in s; }
  }

  lemma AddrFinished(a: AddrSpec)
    requires EndDraft(a)
    ensures var b := a.(ip := CanonAddr(a));
            && b.ip.Valid() && CanonAddr(b) == b.ip && EndType(b) == EndType(a) && (a.setName != "" ==> b.ip == AnyAddr)
            && (b.ip == AnyAddr || b.ip.Host? || b.ip.Cidr?)
  {
    hide Separators, Mask, CidrMask;
    if a.ip.Cidr? { MaskIdempotent(a.ip.net.addr, a.ip.net.bits); }
  }

  lemma EndFinished(a: AddrSpec, q: Proto)
    requires EndDraft(a)
    ensures EndShape(Finished(a, q), q) && EndType(Finished(a, q)) == EndType(a)
    ensures Multi(Finished(a, q).ports) == Multi(a.ports) && (Finished(a, q).ports == [] <==> a.ports == [])
  {
    hide Separators, Ordered, CanonAddr, SortPorts, Addr.Valid;
    PortsFinished(a.ports, q);
    AddrFinished(a);
    CanonIgnoresPorts(a, SortPorts(Stamp(a.ports, q)));
  }

  lemma CanonIgnoresPorts(a: AddrSpec, ports: seq<PortRange>)
    ensures CanonAddr(AddrSpec(CanonAddr(a), ports, a.setName)) == CanonAddr(a.(ip := CanonAddr(a)))
    ensures EndType(AddrSpec(CanonAddr(a), ports, a.setName)) == EndType(a.(ip := CanonAddr(a)))
  {
  }

  lemma FinishShapes(start: Rule, r: Rule, t: IPType, routing: Routing, kind: Kind, num: nat)
    requires Draft(start, r) && TypeOf(EndType(r.src), EndType(r.dst)) == Ok(t)
    requires start.action in {Allow, Deny, Reject, Limit} && !start.IsApp() && !start.disabled && start.expiresAt == 0
    requires (start.direction == In || start.direction == Out) && start.routeDir == NoDirection
             && '\'' !in start.comment
    requires start.id == "" && !start.v6
    requires FinishPass(r, t, routing, kind, num).Ok?
    ensures var op := FinishPass(r, t, routing, kind, num).value;
            op.RuleOp? && Shaped(op.rule) && op.ipType == CommandEcho.Family(op.rule)
              && CommandEcho.Anonymous(op.rule) == op.rule
  {
    hide EndDraft, EndShape, CanonAddr, SortPorts, Stamp, IfaceText, NameOf, EndType, TypeOf, VerifyPass, RoutedRule,
         IfaceShape;
    EndFinished(r.src, r.proto);
    EndFinished(r.dst, r.proto);
    var f := r.(src := Finished(r.src, r.proto), dst := Finished(r.dst, r.proto));
    CommandEcho.RoutedNormal(Stamped(r), routing);
    assert Normal(Stamped(r)) == f by { FinishedRule(r); }
    SameChecks(r, f, t);
    RoutedShape(f, routing);
    SameChecks(f, RoutedRule(f, routing).value, t);
  }

  lemma FinishedRule(r: Rule)
    ensures Normal(Stamped(r)) == r.(src := Finished(r.src, r.proto), dst := Finished(r.dst, r.proto))
  {
    hide SortPorts, Stamp;
  }

  lemma SameChecks(r: Rule, f: Rule, t: IPType)
    requires f.proto == r.proto && Multi(f.src.ports) == Multi(r.src.ports) && Multi(f.dst.ports) == Multi(r.dst.ports)
    requires (f.src.ports == [] <==> r.src.ports == []) && (f.dst.ports == [] <==> r.dst.ports == [])
    ensures VerifyPass(f, t) == VerifyPass(r, t)
  {
  }

  lemma RoutedShape(f: Rule, routing: Routing)
    requires RoutedRule(f, routing).Ok? && IfaceShape(f.ifaceIn) && IfaceShape(f.ifaceOut)
    ensures var q := RoutedRule(f, routing).value;
            && q == f.(direction := q.direction, routeDir := q.routeDir, ifaceIn := q.ifaceIn, ifaceOut := q.ifaceOut)
            && IfaceShape(q.ifaceIn) && IfaceShape(q.ifaceOut)
            && (if routing.routed then q.direction == Routed && q.routeDir == f.direction
                else q.direction == f.direction && q.routeDir == f.routeDir)
  {
    hide IfaceText;
    if routing.routed && routing.deferred.Some? { NameText(routing.deferred.value.1); }
  }

  // ---- the passes keep tidy tokens ----

  lemma RouteTidy(args: seq<Tok>)
    requires Tidy(args) && RoutePass(args).Ok?
    ensures Tidy(RoutePass(args).value.argv)
  {
    hide DeferPass, Lower;
    if args != [] && LowerIs(args[0], "route") { DeferTidy(DropRule(args[1..])); }
  }

  lemma DeferTidy(argv: seq<Tok>)
    requires Tidy(argv) && DeferPass(argv).Ok?
    ensures Tidy(DeferPass(argv).value.argv)
  {
    hide DeletesNumber, OnClause, Inside, IndexTok;
  }

  lemma DispatchTidy(argv: seq<Tok>)
    requires Tidy(argv) && DispatchPass(argv).Ok?
    ensures var d := DispatchPass(argv).value; d.Rest? ==> Tidy(d.argv)
  {
    hide Lower;
  }

  lemma DirTidy(argv: seq<Tok>)
    requires Tidy(argv) && |argv| >= 2
    ensures Tidy(DirPass(argv).0) && |DirPass(argv).0| >= 2 && DirPass(argv).0[0] == argv[0]
    ensures DirPass(argv).1 == In || DirPass(argv).1 == Out
  {
    hide Lower;
  }

  lemma IfaceTidy(argv: seq<Tok>)
    requires Tidy(argv) && IfacePass(argv).Ok?
    ensures Tidy(IfacePass(argv).value.0)
  {
    hide Lower;
  }

  lemma LogTidy(argv: seq<Tok>, hasIface: bool)
    requires Tidy(argv) && LogPass(argv, hasIface).Ok?
    ensures Tidy(LogPass(argv, hasIface).value.0)
  {
    hide Lower;
  }

  lemma CommentTidy(argv: seq<Tok>)
    requires Tidy(argv) && CommentPass(argv).Ok?
    ensures Tidy(CommentPass(argv).value.0) && '\'' !in CommentPass(argv).value.1
  {
    hide IndexTok;
  }

  lemma ExpiresTidy(argv: seq<Tok>, now: int)
    requires Tidy(argv) && ExpiresPass(argv, now).Ok?
    ensures Tidy(ExpiresPass(argv, now).value.0)
  {
    hide IndexTok;
  }

  lemma {:induction false} FoldTidy(argv: seq<Tok>)
    requires Tidy(argv) && FoldSets(argv).Ok?
    ensures Tidy(FoldSets(argv).value)
  {
    if |argv| >= 2 {
      if (argv[0] == Word("from") || argv[0] == Word("to")) && argv[1] == Word("set") {
        FoldTidy(argv[3..]);
      } else {
        FoldTidy(argv[1..]);
      }
    }
  }

  lemma RestShapes(argv: seq<Tok>, d: Direction, routing: Routing, kind: Kind, num: nat, now: int)
    requires Tidy(argv) && |argv| >= 1 && (d == In || d == Out)
    requires RestPass(argv, d, routing, kind, num, now).Ok?
             && !Expires(RestPass(argv, d, routing, kind, num, now).value)
    ensures Returned(RestPass(argv, d, routing, kind, num, now).value)
  {
    hide Tidy, IfacePass, LogPass, CommentPass, ExpiresPass, FoldSets, BodyPass, Draft, TypeOf, EndType, FinishPass,
         Shaped, ActionOf;
    var f := IfacePass(argv).value;
    IfaceTidy(argv);
    var l := LogPass(f.0, f.1).value;
    LogTidy(f.0, f.1);
    var c := CommentPass(l.0).value;
    CommentTidy(l.0);
    var e := ExpiresPass(c.0, now).value;
    ExpiresTidy(c.0, now);
    var s := FoldSets(e.0).value;
    FoldTidy(e.0);
    var action := ActionOf(argv[0]).value;
    KnownActions(argv[0]);
    var start := Fresh(action, d, l.1, c.1, e.1);
    BodyDraft(start, s, f.1);
    var b := BodyPass(start, s, f.1).value;
    KeepsExpiry(start, b.0, b.1, routing, kind, num);
    FinishShapes(start, b.0, b.1, routing, kind, num);
  }

  predicate Expires(op: Op) { op.RuleOp? && op.rule.expiresAt != 0 }

  // What the parser promises of the rule it returns.
  ghost predicate Returned(op: Op)
  {
    op.RuleOp? && Shaped(op.rule) && op.ipType == CommandEcho.Family(op.rule)
        && CommandEcho.Anonymous(op.rule) == op.rule
  }

  lemma KnownActions(t: Tok)
    requires ActionOf(t).Some?
    ensures ActionOf(t).value in {Allow, Deny, Reject, Limit}
  {
  }

  lemma KeepsExpiry(start: Rule, r: Rule, t: IPType, routing: Routing, kind: Kind, num: nat)
    requires Draft(start, r) && FinishPass(r, t, routing, kind, num).Ok?
    ensures var op := FinishPass(r, t, routing, kind, num).value; op.RuleOp? && op.rule.expiresAt == start.expiresAt
  {
    hide EndDraft, CanonAddr, SortPorts, Stamp, VerifyPass, IfaceText;
  }

  // Every rule the parser returns without an expiry is shaped, and comes
  // with the family its addresses and protocol select.
  lemma {:induction false} ParserShapes(args: seq<Tok>, now: int)
    requires Tidy(args) && Parse(args, now).Ok?
    ensures var op := Parse(args, now).value; op.RuleOp? && !Expires(op) ==> Returned(op)
  {
    hide Tidy, RoutePass, DispatchPass, DirPass, RestPass, Returned, ActionOf;
    var routing := RoutePass(args).value;
    RouteTidy(args);
    DispatchTidy(routing.argv);
    var d := DispatchPass(routing.argv).value;
    if d.Rest? && !Expires(Parse(args, now).value) {
      DirTidy(d.argv);
      RestShapes(DirPass(d.argv).0, DirPass(d.argv).1, routing, d.kind, d.num, now);
    }
  }

  // ---- the rules of the grammar, one by one ----

  predicate IsV6(a: AddrSpec) { (a.ip.Host? && |a.ip.host| == 16) || (a.ip.Cidr? && |a.ip.net.addr| == 16) }

  predicate IsV4(a: AddrSpec) { (a.ip.Host? && |a.ip.host| == 4) || (a.ip.Cidr? && |a.ip.net.addr| == 4) }

  // Several ranges, or one of several ports.
  predicate ManyPorts(ports: seq<PortRange>) { |ports| > 1 || exists p :: p in ports && p.lo < p.hi }

  // At most fifteen ports, a range counting as two.
  ghost predicate GoodEnd(a: AddrSpec, q: Proto)
  {
    && (a.ip == AnyAddr || a.ip.Host? || a.ip.Cidr?) && a.ip.Valid() && CanonAddr(a) == a.ip
    && (a.setName != "" ==> a.ip == AnyAddr)
    && (forall p :: p in a.ports ==> p.proto == q && 1 <= p.lo <= p.hi)
    && Increasing(a.ports) && |a.ports| + RangedCount(a.ports) <= 15
  }

  predicate GoodIface(n: Name)
  {
    && |n| <= 15 && n != [46] && n != [46, 46]
    && forall i :: 0 <= i < |n| ==>
         || 'a' as int <= n[i] <= 'z' as int || 'A' as int <= n[i] <= 'Z' as int || '0' as int <= n[i] <= '9' as int
         || n[i] as char in "_-.+,=%@"
  }

  // Protocols of IPv4 only, and those without ports.
  const V4_PROTOS: set<Proto> := {Ipv6, Igmp, Icmp}
  const PORTLESS: set<Proto> := {Ipv6, Esp, Ah, Igmp, Gre, Vrrp, Icmp, Icmpv6}

  ghost predicate Acceptable(r: Rule)
  {
    && r.action in {Allow, Deny, Reject, Limit} && r.dapp == "" && r.sapp == "" && !r.disabled && r.expiresAt == 0
    && '\'' !in r.comment
    && (if r.direction == Routed then r.routeDir in {In, Out}
        else r.direction in {In, Out} && r.routeDir == NoDirection)
    && GoodIface(r.ifaceIn) && GoodIface(r.ifaceOut)
    && (r.proto in PORTLESS || r.proto in {AnyProto, Tcp, Udp})
    && GoodEnd(r.src, r.proto) && GoodEnd(r.dst, r.proto)
    && !(IsV4(r.src) && IsV6(r.dst)) && !(IsV6(r.src) && IsV4(r.dst))
    && (r.proto == Icmpv6 ==> !IsV4(r.src) && !IsV4(r.dst))
    && (r.proto in V4_PROTOS ==> !IsV6(r.src) && !IsV6(r.dst))
    && (r.proto in PORTLESS ==> r.src.ports == [] && r.dst.ports == [])
    && (ManyPorts(r.src.ports) || ManyPorts(r.dst.ports) ==> r.proto == Tcp || r.proto == Udp)
    && (r.icmpType.Some? ==> r.icmpType.value <= 255 && (r.proto == Icmp || r.proto == Icmpv6))
  }

  // The families a command is for.
  function FamilyOf(r: Rule): IPType
  {
    if IsV6(r.src) || IsV6(r.dst) || r.proto == Icmpv6 then OnlyV6
    else if IsV4(r.src) || IsV4(r.dst) || r.proto in V4_PROTOS then OnlyV4
    else Both
  }

  lemma ManyIsMulti(ports: seq<PortRange>)
    requires forall p :: p in ports ==> p.lo <= p.hi
    ensures ManyPorts(ports) <==> Multi(ports)
  {
    if |ports| == 1 { assert ports[0] in ports; }
  }

  lemma EndMeans(a: AddrSpec, q: Proto)
    ensures EndShape(a, q) <==> GoodEnd(a, q)
    ensures EndShape(a, q) ==> (EndType(a) == V6 <==> IsV6(a)) && (EndType(a) == V4 <==> IsV4(a))
  {
    hide CanonAddr, Separators, Before, RangedCount, Increasing;
    SeparatorCount(a.ports);
    if Ordered(a.ports) { OrderedIncreasing(a.ports); }
    if Increasing(a.ports) { IncreasingOrdered(a.ports); }
    if GoodEnd(a, q) { assert forall i :: 0 <= i < |a.ports| ==> a.ports[i] in a.ports; }
    if a.ports == [] { assert RangedCount([]) == 0 by { NoneRanged(); } }
  }

  lemma NoneRanged()
    ensures RangedCount([]) == 0
  {
  }

  lemma IncreasingOrdered(ports: seq<PortRange>)
    requires Increasing(ports)
    ensures Ordered(ports)
  {
    hide TextLess, Text;
  }

  lemma IfaceMeans(n: Name)
    ensures IfaceShape(n) <==> GoodIface(n)
  {
    var s := TextOf(n);
    assert |s| == |n| && forall i :: 0 <= i < |n| ==> s[i] == n[i] as char;
    assert s == "." <==> n == [46];
    assert s == ".." <==> n == [46, 46];
    assert forall i :: 0 <= i < |n| ==> s[i] as int == n[i];
  }

  // Together with ParserShapes and the echo these are the rules the parser
  // returns without an expiry, no more and no fewer.
  lemma {:induction false} ShapedMeans(r: Rule)
    ensures Shaped(r) <==> Acceptable(r)
    ensures Shaped(r) ==> CommandEcho.Family(r) == FamilyOf(r)
  {
    hide EndShape, GoodEnd, IfaceShape, GoodIface, EndType, ManyPorts, Multi;
    EndMeans(r.src, r.proto);
    EndMeans(r.dst, r.proto);
    IfaceMeans(r.ifaceIn);
    IfaceMeans(r.ifaceOut);
    if GoodEnd(r.src, r.proto) && GoodEnd(r.dst, r.proto) {
      PortsUp(r.src, r.proto);
      PortsUp(r.dst, r.proto);
      ManyIsMulti(r.src.ports);
      ManyIsMulti(r.dst.ports);
    }
  }

  lemma PortsUp(a: AddrSpec, q: Proto)
    requires GoodEnd(a, q)
    ensures forall p :: p in a.ports ==> p.lo <= p.hi
  {
  }

  // ---- the round trip ----

  // Echoing and parsing gives back an exactly matching rule if and only if
  // the command conveys the direction the rule has.
  lemma {:induction false} EchoExact(r: Rule, now: int)
    requires Shaped(r) && WildAsAny(r) && FreeNames(r) && !r.v6
    ensures var p := Parse(Command(r), now);
            (p.Ok? && p.value.RuleOp? && Match(p.value.rule, r) == MatchExact) <==> Direct(r)
  {
    hide Shaped, WildAsAny, FreeNames, Parse, Command, PortKeys;
    if Readable(r) {
      CommandEcho.EchoParses(r, now);
      DirectionsKnown(r);
    } else {
      CommandEcho.EchoRefused(r, now);
    }
  }

  lemma DirectionsKnown(r: Rule)
    requires Shaped(r)
    ensures if r.direction == Routed then r.routeDir == In || r.routeDir == Out
            else (r.direction == In || r.direction == Out) && r.routeDir == NoDirection
  {
  }

  // The echo of what was parsed parses to the same rule, for every command
  // line whose rule is direct, does not expire, writes wildcards as "any"
  // and uses no word of the grammar as a name.
  lemma {:induction false} EchoOfParsed(args: seq<Tok>, now: int, later: int)
    requires Tidy(args) && Parse(args, now).Ok? && Parse(args, now).value.RuleOp?
    requires var r := Parse(args, now).value.rule; r.expiresAt == 0 && WildAsAny(r) && FreeNames(r)
    ensures var op, p := Parse(args, now).value, Parse(Command(Parse(args, now).value.rule), later);
            p == Ok(RuleOp(Add, 0, op.rule, op.ipType)) <==> Direct(op.rule)
  {
    hide Shaped, WildAsAny, FreeNames, Parse, Command, CommandEcho.Family;
    ParserShapes(args, now);
    var r := Parse(args, now).value.rule;
    DirectionsKnown(r);
    if Readable(r) { CommandEcho.EchoParses(r, later); } else { CommandEcho.EchoRefused(r, later); }
  }

  // ---- rules whose echo does not come back ----

  // A bare direction in capitals passes the check on route rules, so every
  // outgoing route rule without interfaces can be written; its echo gives
  // the incoming one.
  lemma {:induction false} CapitalOut(r: Rule, now: int)
    requires Shaped(r) && WildAsAny(r) && FreeNames(r) && r.Forward() && r.routeDir == Out && r.ifaceIn == []
             && r.ifaceOut == []
    ensures Parse([Word("route")] + ([Word(ActionText(r.action))] + ([Word("OUT")] + CommandEcho.TailToks(r))), now) ==
            Ok(RuleOp(Add, 0, CommandEcho.Anonymous(r), CommandEcho.Family(r)))
    ensures Parse(Command(r), now) ==
            Ok(RuleOp(Add, 0, CommandEcho.Anonymous(r).(routeDir := In), CommandEcho.Family(r)))
  {
    hide Shaped, WildAsAny, FreeNames, RestPass, DeferPass, CommandEcho.TailToks, Command, Lower, ActionText,
         CommandEcho.AllMute, CommandEcho.PlainFirst, CommandEcho.Built, ActionOf, DirPass, DispatchPass;
    var a, t := Word(ActionText(r.action)), CommandEcho.TailToks(r);
    hide RoutePass;
    CommandEcho.EchoParses(r, now);
    CommandEcho.KnownAction(r);
    CommandEcho.ActionWords(r.action);
    CommandEcho.TailPlain(r);
    CapitalRoute(a, t);
    CommandEcho.DispatchEcho(a, [Word("OUT")] + t);
    CapitalDir(a, t);
    var routing := Routing([a] + ([Word("OUT")] + t), true, None);
    CommandEcho.RestEcho(r, Out, CommandEcho.NoHead, routing, now);
    CommandEcho.TailIs(r);
    assert CommandEcho.HeadToks(CommandEcho.NoHead) + t == t;
    RoutedOut(r, routing);
  }

  lemma CapitalRoute(a: Tok, t: seq<Tok>)
    requires CommandEcho.Mute(a) && CommandEcho.AllMute(t) && !LowerIs(a, "rule")
    ensures RoutePass([Word("route")] + ([a] + ([Word("OUT")] + t))) ==
            Ok(Routing([a] + ([Word("OUT")] + t), true, None))
  {
    hide DeferPass, Lower, CommandEcho.AllMute, CommandEcho.Mute;
    CommandEcho.LowerSame("route");
    CommandEcho.Unrouted(a, [Word("OUT")] + t);
    MuteCapital(t);
    CommandEcho.DeferOne(a, CommandEcho.NoHead, [Word("OUT")] + t);
    assert CommandEcho.HeadToks(CommandEcho.NoHead) + ([Word("OUT")] + t) == [Word("OUT")] + t;
  }

  lemma MuteCapital(t: seq<Tok>)
    requires CommandEcho.AllMute(t)
    ensures CommandEcho.AllMute([Word("OUT")] + t)
  {
  }

  lemma CapitalDir(a: Tok, t: seq<Tok>)
    requires t != [] && CommandEcho.PlainFirst(t)
    ensures DirPass([a] + ([Word("OUT")] + t)) == ([a] + t, Out)
  {
    var argv := [a] + ([Word("OUT")] + t);
    assert Lower("OUT") == "out";
    assert argv[..1] + argv[2..] == [a] + t;
  }

  lemma RoutedOut(r: Rule, routing: Routing)
    requires Shaped(r) && r.Forward() && r.routeDir == Out && r.ifaceIn == [] && r.ifaceOut == []
    requires routing.routed && routing.deferred.None?
    ensures RoutedRule(CommandEcho.Built(r, Out, CommandEcho.NoHead), routing) == Ok(CommandEcho.Anonymous(r))
  {
    hide EndShape, VerifyPass, TypeOf;
  }

  // "allow in on I out O": accepted, with both interfaces; the echo is not.
  lemma {:induction false} SecondClauseLost(i: Name, o: Name, now: int)
    requires i != [] && o != [] && IfaceText(TextOf(i)) && IfaceText(TextOf(o)) && Free(TextOf(i)) && Free(TextOf(o))
    ensures var p := Parse([Word("allow"), Word("in"), Word("on"), Word(TextOf(i)), Word("out"), Word(TextOf(o))], now);
            && p == Ok(RuleOp(Add, 0, TwoIfaces(i, o), Both)) && Shaped(TwoIfaces(i, o))
            && Parse(Command(TwoIfaces(i, o)), now).Err?
  {
    hide Shaped, IfaceText, Command, Free, TwoIfaces, Parse, FreeNames, WildAsAny, Readable;
    var args := [Word("allow"), Word("in"), Word("on"), Word(TextOf(i)), Word("out"), Word(TextOf(o))];
    TwoAccepted(args, i, o, now);
    TidyWords(args);
    ParserShapes(args, now);
    TwoPlain(i, o);
    CommandEcho.EchoRefused(TwoIfaces(i, o), now);
  }

  lemma TidyWords(args: seq<Tok>)
    requires forall i :: 0 <= i < |args| ==> args[i].Word?
    ensures Tidy(args)
  {
  }

  lemma TwoAccepted(args: seq<Tok>, i: Name, o: Name, now: int)
    requires args == [Word("allow"), Word("in"), Word("on"), Word(TextOf(i)), Word("out"), Word(TextOf(o))]
    requires IfaceText(TextOf(i)) && IfaceText(TextOf(o)) && Free(TextOf(i)) && Free(TextOf(o))
    ensures Parse(args, now) == Ok(RuleOp(Add, 0, TwoIfaces(i, o), Both))
  {
    hide RoutePass, DispatchPass, DirPass, RestPass, Lower, IfaceText, Free, TwoIfaces;
    CommandEcho.ActionWords(Allow);
    var t := args[1..];
    assert args == [Word("allow")] + t && args == [] + ([Word("allow")] + t);
    CommandEcho.NotRouted(Word("allow"), t);
    CommandEcho.DispatchEcho(Word("allow"), t);
    CommandEcho.KeptDir(args);
    hide ActionOf, CommandEcho.Mute, CommandEcho.Late, IsKey;
    RestTwoClauses(args, i, o, now);
  }

  function TwoIfaces(i: Name, o: Name): Rule { Fresh(Allow, In, LogNone, "", 0).(ifaceIn := i, ifaceOut := o) }

  lemma TwoPlain(i: Name, o: Name)
    requires i != [] && Free(TextOf(i)) && Free(TextOf(o)) && o != []
    ensures var r := TwoIfaces(i, o); WildAsAny(r) && FreeNames(r) && !Readable(r) && r.expiresAt == 0
  {
  }

  lemma RestTwoClauses(args: seq<Tok>, i: Name, o: Name, now: int)
    requires args == [Word("allow"), Word("in"), Word("on"), Word(TextOf(i)), Word("out"), Word(TextOf(o))]
    requires IfaceText(TextOf(i)) && IfaceText(TextOf(o)) && Free(TextOf(i)) && Free(TextOf(o))
    ensures RestPass(args, In, Routing(args, false, None), Add, 0, now) == Ok(RuleOp(Add, 0, TwoIfaces(i, o), Both))
  {
    hide Lower, FinishPass, BodyPass, FoldSets, IfacePass, LogPass, CommentPass, ExpiresPass, TwoIfaces, Flatten, Free,
         IfaceText;
    CommandEcho.FirstClauseOnly(args);
    var argv := [Word("allow"), Word("in"), Word(TextOf(i)), Word("out"), Word(TextOf(o))];
    assert args[..2] + args[3..] == argv;
    CommandEcho.FreeToken(TextOf(i));
    CommandEcho.FreeToken(TextOf(o));
    CommandEcho.LogKept(argv);
    assert argv + CommentToks("") == argv;
    CommandEcho.CommentEcho(argv, "");
    CommandEcho.ExpiresEcho(argv, now);
    var cs := [Clause("in", Word(TextOf(i))), Clause("out", Word(TextOf(o)))];
    TwoClauses(argv, cs, i, o);
    TwoFinished(i, o, Routing(args, false, None));
    CommandEcho.ActionWords(Allow);
  }

  lemma TwoClauses(argv: seq<Tok>, cs: seq<Clause>, i: Name, o: Name)
    requires argv == [Word("allow"), Word("in"), Word(TextOf(i)), Word("out"), Word(TextOf(o))]
    requires cs == [Clause("in", Word(TextOf(i))), Clause("out", Word(TextOf(o)))]
    requires IfaceText(TextOf(i)) && IfaceText(TextOf(o)) && Free(TextOf(i)) && Free(TextOf(o))
    ensures FoldSets(argv) == Ok(argv)
    ensures BodyPass(Fresh(Allow, In, LogNone, "", 0), argv, true) == Ok((TwoIfaces(i, o), Both))
  {
    hide IfaceText, ClauseLoop, ProperCounts, ShortToken, ClauseAt, TwoIfaces;
    var a := Word("allow");
    var start := Fresh(Allow, In, LogNone, "", 0);
    var c := Clauses(start, None, AnyType, AnyType);
    TwoSpelled(argv, cs);
    FoldSpell(cs);
    FoldHead(a, Spell(cs));
    CommandEcho.SkipFirst(a, Flatten(cs), c);
    LoopIsApply([a], cs, c);
    TwoProper(argv, cs);
    TwoApply(c, cs, i, o);
  }

  lemma TwoSpelled(argv: seq<Tok>, cs: seq<Clause>)
    requires |argv| == 5 && argv[0] == Word("allow") && argv[1] == Word("in") && argv[2].Word? && argv[3] == Word("out")
             && argv[4].Word?
    requires cs == [Clause("in", argv[2]), Clause("out", argv[4])] && Free(argv[2].text) && Free(argv[4].text)
    ensures GoodClauses(cs) && argv == [Word("allow")] + Flatten(cs) && argv == [Word("allow")] + Spell(cs)
  {
    var rest := cs[1..];
    assert rest == [cs[1]] && rest[1..] == [];
    assert Flatten(rest[1..]) == [] && Spell(rest[1..]) == [];
    assert Flatten(rest) == [Word("out"), argv[4]] + [] && Spell(rest) == [Word("out"), argv[4]] + [];
    assert Flatten(cs) == [Word("in"), argv[2]] + ([Word("out"), argv[4]] + []);
    assert Spell(cs) == [Word("in"), argv[2]] + ([Word("out"), argv[4]] + []);
  }

  lemma TwoProper(argv: seq<Tok>, cs: seq<Clause>)
    requires |cs| == 2 && cs[0].key == "in" && cs[1].key == "out" && GoodClauses(cs)
             && argv == [Word("allow")] + Flatten(cs)
    ensures ProperCounts(argv)
  {
    hide CountTok, Flatten, GoodClauses;
    TwoCount(argv, cs, "to");
    TwoCount(argv, cs, "from");
    TwoCount(argv, cs, "proto");
    TwoCount(argv, cs, "port");
    TwoCount(argv, cs, "type");
    TwoCount(argv, cs, "in");
    TwoCount(argv, cs, "out");
    TwoCount(argv, cs, "app");
  }

  lemma TwoCount(argv: seq<Tok>, cs: seq<Clause>, w: string)
    requires |cs| == 2 && cs[0].key == "in" && cs[1].key == "out" && GoodClauses(cs)
             && argv == [Word("allow")] + Flatten(cs) && IsKey(Word(w))
    ensures CountTok(argv, w) == if w == "in" || w == "out" then 1 else 0
  {
    hide Flatten, GoodClauses;
    CommandEcho.CountFlatten(cs, w);
    assert argv[1..] == Flatten(cs) && argv[0] != Word(w);
    var rest := cs[1..];
    assert rest == [cs[1]] && rest[1..] == [];
    assert CommandEcho.KeyCount(rest[1..], w) == 0;
    assert CommandEcho.KeyCount(rest, w) == if w == "out" then 1 else 0;
  }

  lemma TwoApply(c: Clauses, cs: seq<Clause>, i: Name, o: Name)
    requires c == Clauses(Fresh(Allow, In, LogNone, "", 0), None, AnyType, AnyType)
    requires cs == [Clause("in", Word(TextOf(i))), Clause("out", Word(TextOf(o)))] && IfaceText(TextOf(i))
             && IfaceText(TextOf(o))
    ensures ApplyClauses(c, cs, false) == Ok(c.(r := TwoIfaces(i, o)))
  {
    hide IfaceText;
    TextRoundTrip(i);
    TextRoundTrip(o);
    var rest := cs[1..];
    assert rest == [cs[1]] && rest[1..] == [];
    var d := c.(r := c.r.(ifaceIn := i));
    assert ClauseAt(c, Word("in"), Some(cs[0].value), false) == Ok(d);
    assert ClauseAt(d, Word("out"), Some(cs[1].value), false) == Ok(c.(r := TwoIfaces(i, o)));
    assert ApplyClauses(c.(r := TwoIfaces(i, o)), rest[1..], false) == Ok(c.(r := TwoIfaces(i, o)));
    assert ApplyClauses(d, rest, false) == Ok(c.(r := TwoIfaces(i, o)));
  }

  lemma TwoFinished(i: Name, o: Name, routing: Routing)
    requires !routing.routed
    ensures FinishPass(TwoIfaces(i, o), Both, routing, Add, 0) == Ok(RuleOp(Add, 0, TwoIfaces(i, o), Both))
  {
    assert Stamp([], AnyProto) == [];
  }
}
