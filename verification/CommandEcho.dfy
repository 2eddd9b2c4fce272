/** Parsing the canonical command of a rule gives the rule back, with the
    direction the command conveys. */
module CommandEcho {
  import opened Bytes
  import opened AddressSets
  import opened Outcomes
  import opened Rules
  import opened Normalization
  import opened Grammar
  import opened CanonicalCommand

  // ---- words the early passes look for ----

  predicate Mute(t: Tok) { t !in {Word("in"), Word("out"), Word("on"), Word("delete")} }

  predicate Late(t: Tok) { t !in {Word("log"), Word("log-all"), Word("comment"), Word("expires")} }

  predicate AllMute(s: seq<Tok>) { forall i :: 0 <= i < |s| ==> Mute(s[i]) }

  predicate AllLate(s: seq<Tok>) { forall i :: 0 <= i < |s| ==> Late(s[i]) }

  predicate Lowercase(s: string) { forall i :: 0 <= i < |s| ==> !('A' <= s[i] <= 'Z') }

  lemma LowerSame(s: string)
    requires Lowercase(s)
    ensures Lower(s) == s
  {
    assert forall i :: 0 <= i < |s| ==> Lower(s)[i] == s[i];
  }

  lemma FreeToken(s: string)
    requires Free(s)
    ensures Mute(Word(s)) && Late(Word(s))
  {
  }

  // Words that open a body or a comment.
  predicate Opener(t: Tok)
  {
    t.Ports? || t in {Word("from"), Word("to"), Word("port"), Word("proto"), Word("type"), Word("comment")}
  }

  lemma OpenerWords(t: Tok)
    requires Opener(t)
    ensures !IsLogTok(t) && !IsDirTok(t) && Mute(t)
  {
    if t.Word? { LowerSame(t.text); }
  }

  lemma LogWords(t: Tok)
    requires t == Word("log") || t == Word("log-all")
    ensures IsLogTok(t) && !IsDirTok(t) && Mute(t) && LogOf(t) == if t == Word("log") then LogNew else LogAll
  {
    LowerSame("log");
    LowerSame("log-all");
  }

  lemma DirWords()
    ensures IsDirTok(Word("in")) && IsDirTok(Word("out")) && !IsLogTok(Word("in")) && !IsLogTok(Word("out"))
    ensures DirectionOf(Word("in")) == In && DirectionOf(Word("out")) == Out
    ensures LowerIs(Word("on"), "on") && LowerIs(Word("in"), "in") && !LowerIs(Word("out"), "in")
  {
    LowerSame("in");
    LowerSame("out");
    LowerSame("on");
  }

  lemma ActionWords(a: Action)
    requires a in {Allow, Deny, Reject, Limit}
    ensures var t := Word(ActionText(a));
            && ActionOf(t) == Some(a) && Mute(t) && Late(t) && !IsKey(t) && t != Word("from") && t != Word("to")
            && !LowerIs(t, "delete") && !LowerIs(t, "insert") && !LowerIs(t, "prepend") && !LowerIs(t, "route")
            && !LowerIs(t, "rule")
  {
    LowerSame(ActionText(a));
  }

  lemma NoToken(s: seq<Tok>, w: string)
    requires Word(w) !in s
    ensures IndexTok(s, w) == None
  {
  }

  // ---- the body's words ----

  predicate BodyClause(c: Clause)
  {
    && c.key in {"from", "to", "port", "proto", "type"} && GoodClause(c) && Mute(c.value) && Late(c.value)
  }

  predicate BodyClauses(cs: seq<Clause>) { forall i :: 0 <= i < |cs| ==> BodyClause(cs[i]) }

  lemma SideClauses(key: string, a: AddrSpec, q: Proto)
    requires (key == "from" || key == "to") && EndShape(a, q) && Free(a.setName)
    ensures BodyClauses(Side(key, a, "")) && |Side(key, a, "")| <= if a.ports == [] then 1 else 2
  {
    hide SpansOf, CanonAddr, Separators;
  }

  lemma ProtoClauses(r: Rule)
    requires Shaped(r)
    ensures BodyClauses(ProtoClause(r)) && BodyClauses(TypeClause(r)) && |ProtoClause(r)| <= 1 && |TypeClause(r)| <= 1
  {
    hide EndShape, Text;
    ProtoText(r.proto);
    FreeToken(Text(r.proto));
  }

  lemma BodyIsClauses(r: Rule)
    requires Shaped(r) && FreeNames(r)
    ensures BodyClauses(Body(r)) && |Body(r)| <= 5
    ensures r.ifaceIn == [] && r.ifaceOut == [] ==> Sides(r) != []
    ensures Sides(r) != [] ==> Sides(r)[0].key == "from" || Sides(r)[0].key == "to"
  {
    hide EndShape, Text, Side, LocTok, BodyClause, TypeClause, ProtoClause, Free, TypeOf;
    SideClauses("from", r.src, r.proto);
    SideClauses("to", r.dst, r.proto);
    ProtoClauses(r);
    SideFirst("from", r.src, r.sapp);
    SideFirst("to", r.dst, r.dapp);
    GenericClause();
    NoTypeWithPorts(r);
  }

  lemma GenericClause()
    ensures BodyClause(Clause("to", Word("any")))
  {
  }

  lemma NoTypeWithPorts(r: Rule)
    requires Shaped(r)
    ensures TypeClause(r) != [] ==> r.src.ports == [] && r.dst.ports == []
  {
    hide EndShape, TypeOf;
  }

  lemma SideFirst(key: string, a: AddrSpec, app: string)
    ensures Side(key, a, app) != [] ==> Side(key, a, app)[0].key == key
  {
  }

  lemma {:induction false} SpellWords(cs: seq<Clause>)
    requires BodyClauses(cs)
    ensures AllMute(Spell(cs)) && AllLate(Spell(cs))
    ensures cs != [] ==> Spell(cs) != [] && Opener(Spell(cs)[0]) && Spell(cs)[0] == Word(cs[0].key)
  {
    if cs != [] {
      assert BodyClause(cs[0]);
      assert forall i :: 0 <= i < |cs[1..]| ==> cs[1..][i] == cs[i + 1];
      SpellWords(cs[1..]);
      if cs[0].value.SetRef? { FreeToken(cs[0].value.name); }
    }
  }

  // The body and the comment behind it.
  lemma TailWords(r: Rule)
    requires Shaped(r) && FreeNames(r)
    ensures AllMute(BodyToks(r)) && AllLate(BodyToks(r)) && AllMute(CommentToks(r.comment))
    ensures var t := BodyToks(r) + CommentToks(r.comment); t != [] ==> Opener(t[0])
    ensures r.ifaceIn == [] && r.ifaceOut == [] ==> BodyToks(r) != []
  {
    hide EndShape, VerifyPass, TypeOf, EndType, Shaped, IfaceShape, PrintsAny, SpansOf, Sides, Text;
    KnownAction(r);
    BodyIsClauses(r);
    if !IsShort(r) { SpellWords(Body(r)); }
    if r.comment != "" { FreeToken(r.comment); }
  }

  // ---- pass by pass ----

  // The interface clause a command opens with.
  datatype Head = NoHead | HeadOn(inbound: bool, name: Name)

  function DirText(inbound: bool): string { if inbound then "in" else "out" }

  function HeadToks(h: Head): seq<Tok>
  {
    match h
    case NoHead => []
    case HeadOn(inbound, name) => [Word(DirText(inbound)), Word("on"), Word(TextOf(name))]
  }

  function HeadClause(h: Head): seq<Clause>
  {
    match h
    case NoHead => []
    case HeadOn(inbound, name) => [Clause(DirText(inbound), Word(TextOf(name)))]
  }

  predicate GoodHead(h: Head)
  {
    h.HeadOn? ==> IfaceText(TextOf(h.name)) && Free(TextOf(h.name))
  }

  lemma IfaceEcho(a: Tok, h: Head, t: seq<Tok>)
    requires Mute(a) && AllMute(t)
    ensures IfacePass([a] + (HeadToks(h) + t)) == Ok(([a] + (Spell(HeadClause(h)) + t), h.HeadOn?))
  {
    var argv := [a] + (HeadToks(h) + t);
    DirWords();
    if h.NoHead? {
      assert forall i :: 0 <= i < |argv| ==> Mute(argv[i]);
      assert Word("in") !in argv && Word("out") !in argv;
    } else {
      assert argv[1] == Word(DirText(h.inbound)) && argv[2] == Word("on");
      SpellOne(HeadClause(h)[0]);
      assert argv[..2] + argv[3..] == [a] + (Spell(HeadClause(h)) + t);
    }
  }

  // The log word, if any, goes; the clause words stay.
  lemma LogEcho(a: Tok, h: Head, log: Log, t: seq<Tok>)
    requires Late(a) && Word("log") !in t && Word("log-all") !in t && GoodHead(h)
    requires t != [] ==> !IsLogTok(t[0])
    requires h.NoHead? ==> t != []
    ensures LogPass([a] + (Spell(HeadClause(h)) + (LogToks(log) + t)), h.HeadOn?) ==
            Ok(([a] + (Spell(HeadClause(h)) + t), log))
  {
    hide IsLogTok, LogOf, Spell, Free;
    var argv := [a] + (Spell(HeadClause(h)) + (LogToks(log) + t));
    var rest := [a] + (Spell(HeadClause(h)) + t);
    if h.HeadOn? { SpellOne(HeadClause(h)[0]); FreeToken(TextOf(h.name)); } else { SpellNothing(); }
    DirWords();
    if log != LogNone { LogWords(LogToks(log)[0]); }
    assert Word("log") !in rest && Word("log-all") !in rest;
    if log == LogNone {
      assert argv == rest;
    } else {
      var k := if h.HeadOn? then 3 else 1;
      assert argv[k] == LogToks(log)[0] && argv[..k] + argv[k + 1..] == rest;
    }
  }

  lemma CommentEcho(pre: seq<Tok>, comment: string)
    requires AllLate(pre) && '\'' !in comment
    ensures CommentPass(pre + CommentToks(comment)) == Ok((pre, comment))
  {
    hide IndexTok;
    var argv := pre + CommentToks(comment);
    assert Word("comment") !in pre;
    if comment == "" {
      assert argv == pre;
      NoToken(argv, "comment");
    } else {
      assert argv[..|pre|] == pre && argv[|pre|] == Word("comment");
      FirstIs(argv, "comment", |pre|);
      assert argv[..|pre|] + argv[|pre| + 2..] == pre;
    }
  }

  lemma ExpiresEcho(argv: seq<Tok>, now: int)
    requires AllLate(argv)
    ensures ExpiresPass(argv, now) == Ok((argv, 0))
  {
    assert Word("expires") !in argv;
    NoToken(argv, "expires");
  }

  lemma CommentUnlogged(x: seq<Tok>, comment: string)
    requires AllLate(x) && Free(comment)
    ensures Word("log") !in x + CommentToks(comment) && Word("log-all") !in x + CommentToks(comment)
  {
  }

  // Everything between the direction and the body.
  lemma MiddleEcho(a: Tok, h: Head, log: Log, x: seq<Tok>, comment: string, now: int)
    requires Mute(a) && Late(a) && GoodHead(h) && AllMute(x) && AllLate(x) && AllMute(CommentToks(comment))
             && Free(comment) && '\'' !in comment
    requires h.NoHead? ==> x != []
    requires var t := x + CommentToks(comment); t != [] ==> Opener(t[0])
    ensures var f := IfacePass([a] + (HeadToks(h) + (LogToks(log) + (x + CommentToks(comment)))));
            && f.Ok? && f.value.1 == h.HeadOn?
            && var l := LogPass(f.value.0, h.HeadOn?);
            && l.Ok? && l.value.1 == log
            && var c := CommentPass(l.value.0);
            && c == Ok(([a] + (Spell(HeadClause(h)) + x), comment))
            && ExpiresPass(c.value.0, now) == Ok((c.value.0, 0))
  {
    hide IfacePass, LogPass, CommentPass, ExpiresPass, Spell, Free, Opener, Mute, IsLogTok;
    var c := CommentToks(comment);
    if log != LogNone { LogWords(LogToks(log)[0]); }
    if x + c != [] { OpenerWords((x + c)[0]); }
    IfaceEcho(a, h, LogToks(log) + (x + c));
    assert Word("log") !in x + c && Word("log-all") !in x + c by { CommentUnlogged(x, comment); }
    LogEcho(a, h, log, x + c);
    var pre := [a] + (Spell(HeadClause(h)) + x);
    assert AllLate(pre) by { HeadLate(h); }
    assert [a] + (Spell(HeadClause(h)) + (x + c)) == pre + c;
    CommentEcho(pre, comment);
    ExpiresEcho(pre, now);
  }

  lemma HeadLate(h: Head)
    requires GoodHead(h)
    ensures AllLate(Spell(HeadClause(h)))
  {
    if h.HeadOn? { SpellOne(HeadClause(h)[0]); FreeToken(TextOf(h.name)); }
  }

  // ---- the body ----

  function Arms(h: Head, r: Rule): seq<Clause> { HeadClause(h) + Body(r) }

  lemma ArmsGood(h: Head, r: Rule)
    requires GoodHead(h) && Shaped(r) && FreeNames(r)
    ensures GoodClauses(Arms(h, r)) && |Arms(h, r)| <= 6
  {
    hide EndShape, Shaped, FreeNames, Body, GoodClause, Free, TypeOf, IfaceText;
    BodyIsClauses(r);
    HeadGood(h);
    var cs := Arms(h, r);
    forall i | 0 <= i < |cs| ensures GoodClause(cs[i]) {
      if i >= |HeadClause(h)| { assert BodyClause(Body(r)[i - |HeadClause(h)|]); }
    }
  }

  lemma HeadGood(h: Head)
    requires GoodHead(h)
    ensures GoodClauses(HeadClause(h)) && |HeadClause(h)| <= 1
  {
  }

  // Set references are folded back.
  lemma FoldEcho(a: Tok, h: Head, r: Rule)
    requires a != Word("from") && a != Word("to") && GoodHead(h) && Shaped(r) && FreeNames(r)
    ensures FoldSets([a] + (Spell(HeadClause(h)) + Spell(Body(r)))) == Ok([a] + Flatten(Arms(h, r)))
  {
    hide EndShape, Shaped, FreeNames, Body, GoodClauses, GoodHead, HeadClause;
    ArmsGood(h, r);
    SpellAppend(HeadClause(h), Body(r));
    FoldSpell(Arms(h, r));
    FoldHead(a, Spell(Arms(h, r)));
  }

  // How many clauses have a key.
  function KeyCount(cs: seq<Clause>, w: string): nat
  {
    if cs == [] then 0 else (if cs[0].key == w then 1 else 0) + KeyCount(cs[1..], w)
  }

  lemma {:induction false} KeyCountAppend(a: seq<Clause>, b: seq<Clause>, w: string)
    ensures KeyCount(a + b, w) == KeyCount(a, w) + KeyCount(b, w)
  {
    if a == [] {
      assert a + b == b;
    } else {
      assert (a + b)[1..] == a[1..] + b;
      KeyCountAppend(a[1..], b, w);
    }
  }

  lemma {:induction false} CountFlatten(cs: seq<Clause>, w: string)
    requires GoodClauses(cs) && IsKey(Word(w))
    ensures CountTok(Flatten(cs), w) == KeyCount(cs, w)
  {
    if cs != [] {
      assert GoodClause(cs[0]) && forall i :: 0 <= i < |cs[1..]| ==> cs[1..][i] == cs[i + 1];
      CountFlatten(cs[1..], w);
      var k, v, rest := Word(cs[0].key), cs[0].value, Flatten(cs[1..]);
      var all := [k, v] + rest;
      assert all[1..] == [v] + rest && all[1..][1..] == rest;
    }
  }

  // How often each key occurs in a body.
  lemma BodyCounts(r: Rule, w: string)
    requires Shaped(r)
    ensures KeyCount(Body(r), w) <= if w == "port" then 2 else if w in {"from", "to", "proto", "type"} then 1 else 0
  {
    hide EndShape, Shaped, Sides, ProtoClause, TypeClause;
    KnownAction(r);
    KeyCountAppend(Sides(r), ProtoClause(r) + TypeClause(r), w);
    KeyCountAppend(ProtoClause(r), TypeClause(r), w);
    SidesCounts(r, w);
    ProtoCounts(r, w);
  }

  lemma SidesCounts(r: Rule, w: string)
    requires !r.IsApp()
    ensures KeyCount(Sides(r), w) <= if w == "port" then 2 else if w in {"from", "to"} then 1 else 0
  {
    hide Side;
    KeyCountAppend(Side("from", r.src, r.sapp), Side("to", r.dst, r.dapp), w);
    SideCounts("from", r.src, w);
    SideCounts("to", r.dst, w);
    assert [Clause("to", Word("any"))][1..] == [];
  }

  lemma SideCounts(key: string, a: AddrSpec, w: string)
    ensures KeyCount(Side(key, a, ""), w) <= (if w == key then 1 else 0) + if w == "port" then 1 else 0
  {
    hide LocTok, PrintsAny;
    var s := Side(key, a, "");
    if s != [] {
      var rest := s[1..];
      if |s| == 2 {
        assert rest == [s[1]] && rest[1..] == [] && s[1].key == "port";
        assert KeyCount(rest, w) == if w == "port" then 1 else 0;
      } else {
        assert rest == [];
      }
    }
  }

  lemma ProtoCounts(r: Rule, w: string)
    ensures KeyCount(ProtoClause(r), w) <= if w == "proto" then 1 else 0
    ensures KeyCount(TypeClause(r), w) <= if w == "type" then 1 else 0
  {
    if ProtoClause(r) != [] { assert ProtoClause(r)[1..] == []; }
    if TypeClause(r) != [] { assert TypeClause(r)[1..] == []; }
  }

  lemma ArmCounts(a: Tok, h: Head, r: Rule, w: string)
    requires !IsKey(a) && IsKey(Word(w)) && GoodHead(h) && Shaped(r) && FreeNames(r)
    ensures CountTok([a] + Flatten(Arms(h, r)), w) <=
            if w == "port" then 2 else if w in {"from", "to", "proto", "type", "in", "out"} then 1 else 0
  {
    hide EndShape, Shaped, FreeNames, Body, GoodHead, Flatten;
    ArmsGood(h, r);
    CountFlatten(Arms(h, r), w);
    KeyCountAppend(HeadClause(h), Body(r), w);
    BodyCounts(r, w);
    if h.HeadOn? { assert HeadClause(h)[1..] == []; }
    var argv := [a] + Flatten(Arms(h, r));
    assert argv[1..] == Flatten(Arms(h, r));
  }

  lemma ArmsProper(a: Tok, h: Head, r: Rule)
    requires !IsKey(a) && GoodHead(h) && Shaped(r) && FreeNames(r)
    ensures ProperCounts([a] + Flatten(Arms(h, r)))
  {
    hide EndShape, Shaped, FreeNames, Body, GoodHead, Flatten, Arms, CountTok;
    ArmCounts(a, h, r, "to");
    ArmCounts(a, h, r, "from");
    ArmCounts(a, h, r, "proto");
    ArmCounts(a, h, r, "port");
    ArmCounts(a, h, r, "type");
    ArmCounts(a, h, r, "in");
    ArmCounts(a, h, r, "out");
    ArmCounts(a, h, r, "app");
  }

  function WithHead(r: Rule, h: Head): Rule
  {
    match h
    case NoHead => r
    case HeadOn(inbound, name) => if inbound then r.(ifaceIn := name) else r.(ifaceOut := name)
  }

  lemma HeadApplies(start: Rule, h: Head, seen: bool)
    requires GoodHead(h)
    ensures ApplyClauses(Clauses(start, None, AnyType, AnyType), HeadClause(h), seen) ==
            Ok(Clauses(WithHead(start, h), None, AnyType, AnyType))
    ensures forall i :: 0 <= i < |HeadClause(h)| ==> HeadClause(h)[i].key != "proto"
  {
    if h.HeadOn? {
      TextRoundTrip(h.name);
      assert HeadClause(h)[1..] == [];
    }
  }

  ghost predicate Starts(start: Rule)
  {
    && start.src == AddrSpec(AnyAddr, [], "") && start.dst == AddrSpec(AnyAddr, [], "")
    && start.proto == AnyProto && start.icmpType == None && start.ifaceIn == [] && start.ifaceOut == []
  }

  ghost predicate EchoBody(b: Result<(Rule, IPType)>, start: Rule, h: Head, r: Rule)
    requires Shaped(r)
  {
    b == Ok((Unstamped(WithHead(start, h), r), TypeOf(EndType(r.src), EndType(r.dst)).value))
  }

  // The full form.
  lemma FullEcho(start: Rule, a: Tok, h: Head, r: Rule)
    requires !IsKey(a) && GoodHead(h) && Shaped(r) && WildAsAny(r) && FreeNames(r) && Starts(start)
    requires h.NoHead? ==> r.ifaceIn == [] && r.ifaceOut == []
    ensures EchoBody(BodyPass(start, [a] + Flatten(Arms(h, r)), h.HeadOn?), start, h, r)
  {
    hide EndShape, Shaped, FreeNames, WildAsAny, Body, GoodHead, Flatten, ClauseLoop, ProperCounts, Unstamped, SetIface,
         ShortToken, TypeOf, EndType, IsKey;
    var cs := Arms(h, r);
    var argv := [a] + Flatten(cs);
    ArmsGood(h, r);
    ArmsProper(a, h, r);
    FlattenLength(cs);
    ArmsSided(h, r);
    FlattenFirst(cs);
    assert Word(cs[0].key) in argv by { assert argv[1] == Word(cs[0].key); }
    ArmsApply(start, a, h, r);
    TypesAgree(r);
  }

  lemma TypesAgree(r: Rule)
    requires Shaped(r)
    ensures TypeOf(EndType(r.src), EndType(r.dst)).Ok?
  {
  }

  lemma ArmsSided(h: Head, r: Rule)
    requires Shaped(r) && FreeNames(r)
    requires h.NoHead? ==> r.ifaceIn == [] && r.ifaceOut == []
    ensures var cs := Arms(h, r); cs != [] && cs[0].key in {"in", "out", "from", "to"}
  {
    hide EndShape, Shaped, FreeNames, Sides;
    BodyIsClauses(r);
  }

  lemma ArmsApply(start: Rule, a: Tok, h: Head, r: Rule)
    requires !IsKey(a) && GoodHead(h) && Shaped(r) && WildAsAny(r) && FreeNames(r) && Starts(start)
    ensures var c := ClauseLoop([a] + Flatten(Arms(h, r)), 0, Clauses(start, None, AnyType, AnyType));
            && c.Ok? && c.value.r == Unstamped(WithHead(start, h), r)
            && c.value.fromType == EndType(r.src) && c.value.toType == EndType(r.dst)
  {
    hide EndShape, Shaped, FreeNames, WildAsAny, Body, GoodHead, Flatten, ClauseLoop, ApplyClauses, Unstamped,
         GoodClauses, IsKey, HeadClause;
    var c := Clauses(start, None, AnyType, AnyType);
    ArmsGood(h, r);
    SkipFirst(a, Flatten(Arms(h, r)), c);
    LoopIsApply([a], Arms(h, r), c);
    NotProto(a);
    ApplyAppend(c, HeadClause(h), Body(r), false);
    HeadApplies(start, h, false);
    BodyApplies(WithHead(start, h), r);
  }

  lemma NotProto(a: Tok)
    requires !IsKey(a)
    ensures Word("proto") !in [a]
  {
  }

  lemma SkipFirst(a: Tok, t: seq<Tok>, c: Clauses)
    requires !IsKey(a)
    ensures ClauseLoop([a] + t, 0, c) == ClauseLoop([a] + t, 1, c)
  {
    SkipValue([a] + t, 0, c);
  }

  // ---- the checks and the finished rule ----

  lemma StampsBack(ports: seq<PortRange>, q: Proto)
    requires forall i :: 0 <= i < |ports| ==> ports[i].proto == q
    ensures Stamp(Bare(ports), q) == ports
  {
  }

  lemma NormalBack(a: AddrSpec, q: Proto)
    requires EndShape(a, q)
    ensures var b := Parsed(a).(ports := Stamp(Parsed(a).ports, q));
            b.(ip := CanonAddr(b), ports := SortPorts(b.ports)) == a
  {
    hide SortPorts, Ordered, Separators, Before;
    StampsBack(a.ports, q);
    SortKeepsOrdered(a.ports);
    if a.setName == "" { assert CanonAddr(a.(setName := "")) == a.ip; }
  }

  lemma MultiBare(ports: seq<PortRange>)
    ensures Multi(Bare(ports)) == Multi(ports)
  {
  }

  // Protocol checks look at the protocol and the shape of the ports only.
  lemma VerifyBack(start: Rule, r: Rule, t: IPType)
    ensures VerifyPass(Unstamped(start, r), t) == VerifyPass(r, t)
  {
    hide Multi;
    MultiBare(r.src.ports);
    MultiBare(r.dst.ports);
  }

  lemma RuleBack(start: Rule, r: Rule)
    requires Shaped(r)
    ensures Normal(Stamped(Unstamped(start, r))) ==
            start.(src := r.src, dst := r.dst, proto := r.proto, icmpType := r.icmpType)
  {
    hide EndShape, CanonAddr, SortPorts, VerifyPass, TypeOf;
    NormalBack(r.src, r.proto);
    NormalBack(r.dst, r.proto);
  }

  // ---- the whole command ----

  function Start(r: Rule, d: Direction): Rule { Fresh(r.action, d, r.log, r.comment, 0) }

  function Family(r: Rule): IPType
    requires Shaped(r)
  {
    VerifyPass(r, TypeOf(EndType(r.src), EndType(r.dst)).value).value
  }

  // The rule with one interface clause, as the parser builds it.
  function Built(r: Rule, d: Direction, h: Head): Rule
  {
    WithHead(Start(r, d), h).(src := r.src, dst := r.dst, proto := r.proto, icmpType := r.icmpType)
  }

  // Short or full, the body parses to the rule.
  lemma BodyEcho(r: Rule, d: Direction, h: Head)
    requires Shaped(r) && WildAsAny(r) && FreeNames(r) && GoodHead(h)
    requires h.NoHead? <==> r.ifaceIn == [] && r.ifaceOut == []
    ensures var s := FoldSets([Word(ActionText(r.action))] + (Spell(HeadClause(h)) + BodyToks(r)));
            && s.Ok? && EchoBody(BodyPass(Start(r, d), s.value, h.HeadOn?), Start(r, d), h, r)
  {
    hide EndShape, Shaped, FreeNames, WildAsAny, Body, GoodHead, Flatten, BodyPass, FoldSets, EchoBody, Arms,
         ActionText, IsKey, HeadClause, ShortTok, PrintsAny;
    var a := Word(ActionText(r.action));
    KnownAction(r);
    ActionWords(r.action);
    if IsShort(r) {
      ShortEcho(a, r, d, h);
    } else {
      FoldEcho(a, h, r);
      FullEcho(Start(r, d), a, h, r);
    }
  }

  lemma KnownAction(r: Rule)
    requires Shaped(r)
    ensures r.action in {Allow, Deny, Reject, Limit} && '\'' !in r.comment && !r.IsApp()
  {
  }

  lemma ShortEcho(a: Tok, r: Rule, d: Direction, h: Head)
    requires a != Word("from") && a != Word("to") && Shaped(r) && WildAsAny(r) && IsShort(r) && h.NoHead?
    ensures var s := FoldSets([a] + (Spell(HeadClause(h)) + [ShortTok(r)]));
            && s.Ok? && EchoBody(BodyPass(Start(r, d), s.value, h.HeadOn?), Start(r, d), h, r)
  {
    hide VerifyPass, Separators, ShortToken, Unstamped, ShortTok;
    SpellNothing();
    assert [a] + ([] + [ShortTok(r)]) == [a, ShortTok(r)];
    FoldHead(a, [ShortTok(r)]);
    assert FoldSets([ShortTok(r)]) == Ok([ShortTok(r)]);
    ShortParses(r, Start(r, d));
  }

  lemma ShortParses(r: Rule, start: Rule)
    requires Shaped(r) && WildAsAny(r) && IsShort(r) && Starts(start)
    ensures ShortToken(start, ShortTok(r)) == Ok(Unstamped(start, r))
    ensures TypeOf(EndType(r.src), EndType(r.dst)) == Ok(Both)
  {
    hide Separators, CanonAddr, Text, ProtoOf;
    ProtoText(r.proto);
    PortsParse(r.dst.ports);
    assert r.icmpType == None;
    assert Bare(r.src.ports) == [];
  }

  lemma RestEcho(r: Rule, d: Direction, h: Head, routing: Routing, now: int)
    requires Shaped(r) && WildAsAny(r) && FreeNames(r) && GoodHead(h)
    requires h.NoHead? <==> r.ifaceIn == [] && r.ifaceOut == []
    ensures RestPass([Word(ActionText(r.action))]
            + (HeadToks(h) + (LogToks(r.log) + (BodyToks(r) + CommentToks(r.comment)))), d, routing, Add, 0, now) ==
            (var q := RoutedRule(Built(r, d, h), routing);
              if q.Err? then Err else Ok(RuleOp(Add, 0, q.value, Family(r))))
  {
    hide EndShape, Shaped, FreeNames, WildAsAny, GoodHead, IfacePass, LogPass, CommentPass, ExpiresPass, BodyPass,
         FoldSets, BodyToks, HeadToks, LogToks, CommentToks, ActionText, RoutedRule, FinishPass, AllMute, AllLate,
         Opener, Spell, HeadClause, Free;
    KnownAction(r);
    ActionWords(r.action);
    TailWords(r);
    CommentFree(r);
    MiddleEcho(Word(ActionText(r.action)), h, r.log, BodyToks(r), r.comment, now);
    BodyEcho(r, d, h);
    FinishEcho(r, d, h, routing);
  }

  lemma CommentFree(r: Rule)
    requires FreeNames(r)
    ensures Free(r.comment)
  {
  }

  lemma FinishEcho(r: Rule, d: Direction, h: Head, routing: Routing)
    requires Shaped(r)
    ensures FinishPass(Unstamped(WithHead(Start(r, d), h), r), TypeOf(EndType(r.src), EndType(r.dst)).value, routing,
            Add, 0) ==
            (var q := RoutedRule(Built(r, d, h), routing);
              if q.Err? then Err else Ok(RuleOp(Add, 0, q.value, Family(r))))
  {
    hide EndShape, Shaped, Normal, Stamped, VerifyPass, RoutedRule, Unstamped, TypeOf;
    TypesAgree(r);
    var u, t := Unstamped(WithHead(Start(r, d), h), r), TypeOf(EndType(r.src), EndType(r.dst)).value;
    VerifyBack(WithHead(Start(r, d), h), r, t);
    VerifyOk(r);
    RuleBack(WithHead(Start(r, d), h), r);
    RoutedNormal(Stamped(u), routing);
  }

  lemma VerifyOk(r: Rule)
    requires Shaped(r)
    ensures VerifyPass(r, TypeOf(EndType(r.src), EndType(r.dst)).value).Ok?
  {
  }

  // Routing and normalising touch different fields.
  lemma RoutedNormal(x: Rule, routing: Routing)
    ensures var q, n := RoutedRule(x, routing), RoutedRule(Normal(x), routing);
            q.Ok? == n.Ok? && (q.Ok? ==> Normal(q.value) == n.value)
  {
    hide CanonAddr, SortPorts, IfaceText, NameOf;
    if routing.deferred.Some? && routing.routed {
      SetIfaceNormal(x, routing.deferred.value.0, Word(routing.deferred.value.1));
    }
  }

  lemma SetIfaceNormal(x: Rule, inbound: bool, t: Tok)
    ensures SetIface(Normal(x), inbound, t) ==
            (var q := SetIface(x, inbound, t); if q.Err? then Err else Ok(Normal(q.value)))
  {
    hide CanonAddr, SortPorts, IfaceText, NameOf;
  }

  // ---- routing and direction ----

  function FirstHead(r: Rule): Head
  {
    if r.ifaceIn != [] then HeadOn(true, r.ifaceIn) else if r.ifaceOut != [] then HeadOn(false, r.ifaceOut) else NoHead
  }

  predicate BareOut(r: Rule) { r.ifaceOut == [] && r.direction == Out }

  predicate PlainFirst(t: seq<Tok>) { t != [] ==> !IsDirTok(t[0]) && t[0] != Word("on") }

  // A bare direction is read and dropped; one with an interface is read only.
  lemma DirEcho(a: Tok, h: Head, bare: bool, t: seq<Tok>)
    requires PlainFirst(t) && (h.NoHead? ==> t != []) && (bare ==> h.NoHead?)
    ensures var argv := [a] + (HeadToks(h) + ((if bare then [Word("out")] else []) + t));
            |argv| >= 2 && DirPass(argv) ==
            ([a] + (HeadToks(h) + t), if bare || (h.HeadOn? && !h.inbound) then Out else In)
  {
    hide IsDirTok;
    DirWords();
    var argv := [a] + (HeadToks(h) + ((if bare then [Word("out")] else []) + t));
    if bare {
      assert argv[..1] + argv[2..] == [a] + (HeadToks(h) + t);
    } else if h.NoHead? {
      assert argv == [a] + (HeadToks(h) + t);
      assert argv[1] == t[0];
      NotOut(t[0]);
    } else {
      assert argv == [a] + (HeadToks(h) + t);
    }
  }

  lemma NotOut(t: Tok)
    requires !IsDirTok(t)
    ensures DirectionOf(t) == In
  {
  }

  // The second interface clause of a route rule is set aside.
  lemma DeferBoth(a: Tok, i: string, o: string, t: seq<Tok>)
    requires Mute(a) && AllMute(t) && Free(i) && Free(o)
    ensures DeferPass([a] + ([Word("in"), Word("on"), Word(i)] + ([Word("out"), Word("on"), Word(o)] + t))) ==
            Ok(Routing([a] + ([Word("in"), Word("on"), Word(i)] + t), true, Some((false, o))))
  {
    hide IndexTok, Free, OnClause, DeletesNumber, Mute, AllMute;
    var argv := [a] + ([Word("in"), Word("on"), Word(i)] + ([Word("out"), Word("on"), Word(o)] + t));
    FreeToken(i);
    FreeToken(o);
    BothClauses(argv, a, Word(i), Word(o), t);
    assert argv[6] == Word(o);
    assert argv[..4] + argv[7..] == [a] + ([Word("in"), Word("on"), Word(i)] + t);
  }

  lemma BothClauses(argv: seq<Tok>, a: Tok, i: Tok, o: Tok, t: seq<Tok>)
    requires argv == [a] + ([Word("in"), Word("on"), i] + ([Word("out"), Word("on"), o] + t))
    requires Mute(a) && Mute(i) && Mute(o) && AllMute(t)
    ensures OnClause(argv, "in") && OnClause(argv, "out") && !DeletesNumber(argv)
    ensures IndexTok(argv, "in") == Some(1) && IndexTok(argv, "out") == Some(4)
  {
    hide IndexTok;
    assert argv[1] == Word("in") && argv[2] == Word("on") && argv[4] == Word("out") && argv[5] == Word("on");
    FirstIs(argv, "in", 1);
    FirstIs(argv, "out", 4);
  }

  lemma DeferOne(a: Tok, h: Head, t: seq<Tok>)
    requires Mute(a) && AllMute(t) && GoodHead(h)
    ensures var argv := [a] + (HeadToks(h) + t); DeferPass(argv) == Ok(Routing(argv, true, None))
  {
    hide IndexTok, Free;
    var argv := [a] + (HeadToks(h) + t);
    if h.NoHead? {
      assert forall i :: 0 <= i < |argv| ==> Mute(argv[i]);
    } else {
      FreeToken(TextOf(h.name));
      var w, other := DirText(h.inbound), DirText(!h.inbound);
      assert argv[1] == Word(w) && argv[2] == Word("on");
      assert OnClause(argv, w);
      assert forall i :: 0 <= i < |argv| ==> argv[i] != Word(other) && argv[i] != Word("delete");
    }
  }

  function Deferred(r: Rule): Option<(bool, string)>
  {
    if r.Forward() && r.ifaceIn != [] && r.ifaceOut != [] then Some((false, TextOf(r.ifaceOut))) else None
  }

  function TailToks(r: Rule): seq<Tok> { LogToks(r.log) + (BodyToks(r) + CommentToks(r.comment)) }

  lemma TailPlain(r: Rule)
    requires Shaped(r) && FreeNames(r)
    ensures AllMute(TailToks(r)) && PlainFirst(TailToks(r)) && (FirstHead(r).NoHead? ==> TailToks(r) != [])
  {
    hide Shaped, FreeNames, BodyToks, CommentToks, Opener, IsDirTok;
    TailWords(r);
    var t := BodyToks(r) + CommentToks(r.comment);
    if t != [] { OpenerWords(t[0]); }
    if r.log != LogNone { LogWords(LogToks(r.log)[0]); }
  }

  lemma HeadIsGood(r: Rule)
    requires Shaped(r) && FreeNames(r)
    ensures GoodHead(FirstHead(r))
    ensures r.ifaceOut != [] ==> GoodHead(HeadOn(false, r.ifaceOut))
  {
    hide EndShape, VerifyPass, TypeOf, Free;
  }

  // Before the direction is read.
  lemma RouteEcho(r: Rule)
    requires Shaped(r) && FreeNames(r) && Readable(r)
    ensures RoutePass(Command(r)) ==
            Ok(Routing([Word(ActionText(r.action))]
              + (HeadToks(FirstHead(r)) + ((if BareOut(r) then [Word("out")] else []) + TailToks(r))),
                       r.Forward(), Deferred(r)))
  {
    hide Shaped, FreeNames, BodyToks, LogToks, CommentToks, DeferPass, TailToks, Free, AllMute, PlainFirst, ActionText,
         Lower, GoodHead;
    var a := Word(ActionText(r.action));
    KnownAction(r);
    ActionWords(r.action);
    HeadIsGood(r);
    TailPlain(r);
    CommandParts(r);
    if r.Forward() {
      LowerSame("route");
      Unrouted(a, DirToks(r) + TailToks(r));
      assert (if BareOut(r) then [Word("out")] else []) + TailToks(r) == TailToks(r);
      DeferEcho(r, a, TailToks(r));
    } else {
      PlainDir(r, TailToks(r));
      NotRouted(a, DirToks(r) + TailToks(r));
    }
  }

  lemma PlainDir(r: Rule, t: seq<Tok>)
    requires !r.Forward() && Readable(r)
    ensures DirToks(r) + t == HeadToks(FirstHead(r)) + ((if BareOut(r) then [Word("out")] else []) + t)
  {
  }

  lemma DeferEcho(r: Rule, a: Tok, t: seq<Tok>)
    requires r.Forward() && Mute(a) && AllMute(t) && FreeNames(r) && GoodHead(FirstHead(r))
    ensures DeferPass([a] + (DirToks(r) + t)) == Ok(Routing([a] + (HeadToks(FirstHead(r)) + t), true, Deferred(r)))
  {
    hide FreeNames, Free, DeferPass, Mute, AllMute, GoodHead;
    if r.ifaceIn != [] && r.ifaceOut != [] {
      FreeIfaces(r);
      DeferBoth(a, TextOf(r.ifaceIn), TextOf(r.ifaceOut), t);
      assert DirToks(r) + t ==
             [Word("in"), Word("on"), Word(TextOf(r.ifaceIn))]
             + ([Word("out"), Word("on"), Word(TextOf(r.ifaceOut))] + t);
    } else {
      DeferOne(a, FirstHead(r), t);
      assert DirToks(r) == HeadToks(FirstHead(r));
    }
  }

  lemma NotRouted(a: Tok, t: seq<Tok>)
    requires !LowerIs(a, "route") && !LowerIs(a, "rule")
    ensures RoutePass([] + ([a] + t)) == Ok(Routing([a] + t, false, None))
  {
    assert [] + ([a] + t) == [a] + t;
  }

  lemma FreeIfaces(r: Rule)
    requires FreeNames(r)
    ensures Free(TextOf(r.ifaceIn)) && Free(TextOf(r.ifaceOut))
  {
  }

  lemma CommandParts(r: Rule)
    ensures Command(r) == (if r.Forward() then [Word("route")] else [])
            + ([Word(ActionText(r.action))] + (DirToks(r) + TailToks(r)))
  {
  }

  lemma Unrouted(a: Tok, t: seq<Tok>)
    requires !LowerIs(a, "rule")
    ensures var args := [Word("route")] + ([a] + t); args[1..] == [a] + t && DropRule(args[1..]) == [a] + t
  {
  }

  // ---- the main results ----

  lemma DispatchEcho(a: Tok, t: seq<Tok>)
    requires !LowerIs(a, "delete") && !LowerIs(a, "insert") && !LowerIs(a, "prepend")
    ensures DispatchPass([a] + t) == Ok(Rest(Add, 0, [a] + t))
  {
  }

  // The rule up to the fields the parser assigns elsewhere.
  function Anonymous(r: Rule): Rule { r.(id := "", v6 := false) }

  lemma {:induction false} EchoParses(r: Rule, now: int)
    requires Shaped(r) && WildAsAny(r) && FreeNames(r) && Readable(r)
    ensures Parse(Command(r), now) == Ok(RuleOp(Add, 0, Anonymous(Redirected(r)), Family(r)))
  {
    hide Shaped, FreeNames, WildAsAny, BodyToks, LogToks, CommentToks, RoutePass, DispatchPass, DirPass, RestPass,
         TailToks, HeadToks, ActionText, AllMute, GoodHead, PlainFirst, Lower, Command, RoutedRule, Redirected,
         Readable, Built, ActionOf;
    var a, h := Word(ActionText(r.action)), FirstHead(r);
    KnownAction(r);
    ActionWords(r.action);
    HeadIsGood(r);
    TailPlain(r);
    BareNoHead(r);
    RouteEcho(r);
    DispatchEcho(a, HeadToks(h) + ((if BareOut(r) then [Word("out")] else []) + TailToks(r)));
    DirEcho(a, h, BareOut(r), TailToks(r));
    var d := if BareOut(r) || (h.HeadOn? && !h.inbound) then Out else In;
    var routing := RoutePass(Command(r)).value;
    RestEcho(r, d, h, routing, now);
    assert TailToks(r) == LogToks(r.log) + (BodyToks(r) + CommentToks(r.comment)) by { TailIs(r); }
    BuiltIs(r, routing.argv);
  }

  lemma TailIs(r: Rule)
    ensures TailToks(r) == LogToks(r.log) + (BodyToks(r) + CommentToks(r.comment))
  {
  }

  lemma BareNoHead(r: Rule)
    requires Shaped(r) && Readable(r)
    ensures BareOut(r) ==> FirstHead(r).NoHead?
  {
  }

  lemma BuiltIs(r: Rule, argv: seq<Tok>)
    requires Shaped(r) && Readable(r)
    ensures var h := FirstHead(r);
            var d := if BareOut(r) || (h.HeadOn? && !h.inbound) then Out else In;
            RoutedRule(Built(r, d, h), Routing(argv, r.Forward(), Deferred(r))) == Ok(Anonymous(Redirected(r)))
  {
    hide EndShape, VerifyPass, TypeOf, IfaceText;
    if r.ifaceOut != [] { TextRoundTrip(r.ifaceOut); }
  }

  // ---- commands no rule can be read from ----

  // A rule that is not routed has one interface clause: a second one, or a
  // bare direction behind the first, does not parse.
  lemma {:induction false} EchoRefused(r: Rule, now: int)
    requires Shaped(r) && WildAsAny(r) && FreeNames(r) && !Readable(r)
    ensures Parse(Command(r), now).Err?
  {
    hide Shaped, FreeNames, WildAsAny, BodyToks, LogToks, CommentToks, RoutePass, DispatchPass, DirPass, RestPass,
         TailToks, ActionText, AllMute, PlainFirst, Lower, Command;
    var a := Word(ActionText(r.action));
    KnownAction(r);
    ActionWords(r.action);
    CommandParts(r);
    NotRouted(a, DirToks(r) + TailToks(r));
    DispatchEcho(a, DirToks(r) + TailToks(r));
    var argv := [a] + (DirToks(r) + TailToks(r));
    assert argv[1] == Word("in") && argv[2] == Word("on");
    KeptDir(argv);
    RestRefused(r, In, Routing(argv, false, None), now);
  }

  lemma KeptDir(argv: seq<Tok>)
    requires |argv| > 2 && argv[1] == Word("in") && argv[2] == Word("on")
    ensures DirPass(argv) == (argv, In)
  {
    DirWords();
  }

  // What follows the first clause.
  function Second(r: Rule): seq<Tok>
  {
    if r.ifaceOut != [] then [Word("out"), Word("on"), Word(TextOf(r.ifaceOut))] else [Word("out")]
  }

  lemma RestRefused(r: Rule, d: Direction, routing: Routing, now: int)
    requires Shaped(r) && WildAsAny(r) && FreeNames(r) && !Readable(r)
    ensures RestPass([Word(ActionText(r.action))] + (DirToks(r) + TailToks(r)), d, routing, Add, 0, now).Err?
  {
    hide Shaped, FreeNames, WildAsAny, BodyToks, LogToks, CommentToks, TailToks, IfacePass, LogPass, CommentPass,
         ExpiresPass, FoldSets, BodyPass, ActionText, AllMute, AllLate, PlainFirst, Lower, FinishPass, Spell, IfaceText,
         IsKey;
    var a, i := Word(ActionText(r.action)), Word(TextOf(r.ifaceIn));
    KnownAction(r);
    ActionWords(r.action);
    FreeIfaces(r);
    FreeToken(TextOf(r.ifaceIn));
    var argv := [a] + (DirToks(r) + TailToks(r));
    FirstClauseGone(a, i, Second(r), TailToks(r));
    assert DirToks(r) == [Word("in"), Word("on"), i] + Second(r);
    FirstClauseOnly(argv);
    if r.log != LogNone {
      LoggedRefused(r, a, i);
    } else {
      PlainRefused(r, a, i, Fresh(r.action, d, LogNone, r.comment, 0), now);
    }
  }

  lemma FirstClauseGone(a: Tok, i: Tok, second: seq<Tok>, t: seq<Tok>)
    ensures var argv := [a] + (([Word("in"), Word("on"), i] + second) + t);
            argv[..2] + argv[3..] == [a, Word("in"), i] + (second + t)
  {
  }

  lemma LoggedRefused(r: Rule, a: Tok, i: Tok)
    requires r.log != LogNone
    ensures LogPass([a, Word("in"), i] + (Second(r) + TailToks(r)), true).Err?
  {
    hide BodyToks, CommentToks, LogToks;
    LogIsToken(r.log);
    TailIs(r);
    var w := LogToks(r.log)[0];
    var rest := [a, Word("in"), i] + (Second(r) + TailToks(r));
    assert rest[3 + |Second(r)|] == w;
    LogRefused(rest);
  }

  lemma PlainRefused(r: Rule, a: Tok, i: Tok, start: Rule, now: int)
    requires Shaped(r) && FreeNames(r) && !Readable(r) && r.log == LogNone
    requires a != Word("from") && a != Word("to") && Late(a) && Late(i) && i == Word(TextOf(r.ifaceIn))
    ensures var pre := [a, Word("in"), i] + (Second(r) + BodyToks(r));
            && LogPass([a, Word("in"), i] + (Second(r) + TailToks(r)), true) ==
            Ok((pre + CommentToks(r.comment), LogNone))
            && CommentPass(pre + CommentToks(r.comment)) == Ok((pre, r.comment))
            && ExpiresPass(pre, now) == Ok((pre, 0))
            && FoldSets(pre).Ok? && BodyPass(start, FoldSets(pre).value, true).Err?
  {
    hide Shaped, FreeNames, BodyToks, LogToks, CommentToks, TailToks, LogPass, CommentPass, ExpiresPass, FoldSets,
         BodyPass, AllMute, AllLate, Readable;
    KnownAction(r);
    TailWords(r);
    TailIs(r);
    NoLogToks();
    var b := BodyToks(r);
    var pre := [a, Word("in"), i] + (Second(r) + b);
    assert [a, Word("in"), i] + (Second(r) + ([] + (b + CommentToks(r.comment)))) == pre + CommentToks(r.comment);
    SecondLate(r);
    ClauseLate(a, i);
    LateAppend([a, Word("in"), i], Second(r), b);
    CommentFree(r);
    CommentUnlogged(pre, r.comment);
    LogKept(pre + CommentToks(r.comment));
    CommentEcho(pre, r.comment);
    ExpiresEcho(pre, now);
    BodyRefused(a, i, r, start);
  }

  lemma LogIsToken(log: Log)
    requires log != LogNone
    ensures LogToks(log) == [Word("log")] || LogToks(log) == [Word("log-all")]
  {
  }

  lemma FirstClauseOnly(argv: seq<Tok>)
    requires |argv| > 2 && argv[1] == Word("in") && argv[2] == Word("on")
    ensures IfacePass(argv) == Ok((argv[..2] + argv[3..], true))
  {
    DirWords();
  }

  // No log word where one may stand, but one further on.
  lemma LogRefused(argv: seq<Tok>)
    requires |argv| > 3 && argv[1] == Word("in") && argv[3] == Word("out")
             && (Word("log") in argv || Word("log-all") in argv)
    ensures LogPass(argv, true).Err?
  {
    DirWords();
  }

  lemma LogKept(argv: seq<Tok>)
    requires |argv| > 3 && argv[1] == Word("in") && argv[3] == Word("out") && Word("log") !in argv
             && Word("log-all") !in argv
    ensures LogPass(argv, true) == Ok((argv, LogNone))
  {
    DirWords();
  }

  lemma SecondLate(r: Rule)
    requires FreeNames(r)
    ensures AllLate(Second(r))
  {
    FreeToken(TextOf(r.ifaceOut));
  }

  lemma NoLogToks()
    ensures LogToks(LogNone) == []
  {
  }

  lemma ClauseLate(a: Tok, i: Tok)
    requires Late(a) && Late(i)
    ensures AllLate([a, Word("in"), i])
  {
  }

  lemma LateAppend(x: seq<Tok>, y: seq<Tok>, z: seq<Tok>)
    requires AllLate(x) && AllLate(y) && AllLate(z)
    ensures AllLate(x + (y + z))
  {
  }

  lemma {:induction false} FoldAfter(pre: seq<Tok>, t: seq<Tok>)
    requires FoldSets(t).Ok? && Word("from") !in pre && Word("to") !in pre
    ensures FoldSets(pre + t) == Ok(pre + FoldSets(t).value)
  {
    hide FoldSets;
    if pre == [] {
      assert pre + t == t && [] + FoldSets(t).value == FoldSets(t).value;
    } else {
      FoldAfter(pre[1..], t);
      FoldHead(pre[0], pre[1..] + t);
      assert [pre[0]] + (pre[1..] + t) == pre + t;
      assert [pre[0]] + (pre[1..] + FoldSets(t).value) == pre + FoldSets(t).value;
    }
  }

  lemma BodyRefused(a: Tok, i: Tok, r: Rule, start: Rule)
    requires a != Word("from") && a != Word("to") && i == Word(TextOf(r.ifaceIn)) && Shaped(r) && FreeNames(r)
             && !Readable(r)
    ensures var s := FoldSets([a, Word("in"), i] + (Second(r) + BodyToks(r)));
            s.Ok? && BodyPass(start, s.value, true).Err?
  {
    hide Shaped, Body, Flatten, FoldSets, ClauseLoop, ProperCounts, SetIface, Spell, TypeOf;
    var pre := [a, Word("in"), i] + Second(r);
    GoodBody(r);
    FoldSpell(Body(r));
    FoldAfter(pre, Spell(Body(r)));
    assert [a, Word("in"), i] + (Second(r) + BodyToks(r)) == pre + Spell(Body(r));
    FlattenLength(Body(r));
    var x := pre + Flatten(Body(r));
    assert |x| % 2 == 0 && x[3] == Word("out");
  }

  lemma GoodBody(r: Rule)
    requires Shaped(r) && FreeNames(r)
    ensures GoodClauses(Body(r))
  {
    hide Shaped, FreeNames, Body, GoodClause;
    BodyIsClauses(r);
    forall i | 0 <= i < |Body(r)| ensures GoodClause(Body(r)[i]) { assert BodyClause(Body(r)[i]); }
  }
}
