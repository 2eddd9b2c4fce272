/** The canonical command of a rule, and parsing it back. */
module CanonicalCommand {
  import opened Bytes
  import opened AddressSets
  import opened Outcomes
  import opened Rules
  import opened Normalization
  import opened Grammar

  // ---- the command ----

  // The endpoint prints as the wildcard.
  predicate PrintsAny(a: AddrSpec)
  {
    a.setName == "" && Widest(a.ip).Any()
  }

  function SpansOf(ports: seq<PortRange>): (r: seq<Span>)
    ensures |r| == |ports|
  {
    seq(|ports|, i requires 0 <= i < |ports| => Span(ports[i].lo, ports[i].hi))
  }

  function LogToks(log: Log): seq<Tok>
  {
    match log
    case LogNone => []
    case LogNew => [Word("log")]
    case LogAll => [Word("log-all")]
  }

  function CommentToks(comment: string): seq<Tok>
  {
    if comment == "" then [] else [Word("comment"), Word(comment)]
  }

  function DirToks(r: Rule): seq<Tok>
  {
    (if r.ifaceIn != [] then [Word("in"), Word("on"), Word(TextOf(r.ifaceIn))] else [])
    + (if r.ifaceOut != [] then [Word("out"), Word("on"), Word(TextOf(r.ifaceOut))]
       else if r.direction == Out then [Word("out")] else [])
  }

  // A clause of the full form: its key and its value.
  datatype Clause = Clause(key: string, value: Tok)

  function LocTok(a: AddrSpec): Tok
  {
    if a.setName != "" then SetRef(a.setName) else if PrintsAny(a) then Word("any") else Address(a.ip)
  }

  // The application of a side is printed instead of its ports.
  function Side(key: string, a: AddrSpec, app: string): seq<Clause>
  {
    if PrintsAny(a) && a.ports == [] && app == "" then []
    else
      [Clause(key, LocTok(a))]
      + if app != "" then [Clause("app", Word(app))]
        else if a.ports == [] then [] else [Clause("port", Tok.Ports(SpansOf(a.ports), None))]
  }

  function ProtoClause(r: Rule): seq<Clause>
  {
    if r.proto == NoProto || r.proto == AnyProto || r.IsApp() then [] else [Clause("proto", Word(Text(r.proto)))]
  }

  function TypeClause(r: Rule): seq<Clause>
  {
    if r.icmpType.None? then [] else [Clause("type", Tok.Ports([Span(r.icmpType.value, r.icmpType.value)], None))]
  }

  // A fully generic rule still says "to any".
  function Sides(r: Rule): seq<Clause>
  {
    var s := Side("from", r.src, r.sapp) + Side("to", r.dst, r.dapp);
    if s == [] && r.ifaceIn == [] && r.ifaceOut == [] then [Clause("to", Word("any"))] else s
  }

  function Body(r: Rule): seq<Clause> { Sides(r) + (ProtoClause(r) + TypeClause(r)) }

  predicate IsShort(r: Rule)
  {
    && PrintsAny(r.dst) && PrintsAny(r.src) && r.src.ports == [] && r.sapp == ""
    && r.ifaceIn == [] && r.ifaceOut == [] && r.dst.ports != []
  }

  function ShortTok(r: Rule): Tok
  {
    if r.dapp != "" then Word(r.dapp)
    else
      var q := if r.proto == NoProto || r.proto == AnyProto then None else Some(Text(r.proto));
      Tok.Ports(SpansOf(r.dst.ports), q)
  }

  // A set is spelled with two words.
  function Spell(cs: seq<Clause>): seq<Tok>
  {
    if cs == [] then []
    else
      [Word(cs[0].key)]
      + (if cs[0].value.SetRef? then [Word("set"), Word(cs[0].value.name)] else [cs[0].value])
      + Spell(cs[1..])
  }

  function BodyToks(r: Rule): seq<Tok>
  {
    if IsShort(r) then [ShortTok(r)] else Spell(Body(r))
  }

  function Command(r: Rule): seq<Tok>
  {
    (if r.Forward() then [Word("route")] else [])
    + ([Word(ActionText(r.action))] + (DirToks(r) + (LogToks(r.log) + (BodyToks(r) + CommentToks(r.comment)))))
  }

  // GetCommand: the words of the command one after the other.
  method GetCommand(r: Rule) returns (res: seq<Tok>)
    ensures res == Command(r)
  {
    hide Spell, PrintsAny, LocTok, SpansOf, Body, ShortTok, LogToks, CommentToks, ActionText;
    res := [Word(ActionText(r.action))];
    if PrintsAny(r.dst) && PrintsAny(r.src) && r.src.ports == [] && r.sapp == "" && r.ifaceIn == [] && r.ifaceOut == []
       && r.dst.ports != [] {
      if r.direction == Out { res := res + [Word("out")]; }
      assert res == [Word(ActionText(r.action))] + DirToks(r);
      res := res + LogToks(r.log) + [ShortTok(r)] + CommentToks(r.comment);
    } else {
      if r.ifaceIn != [] { res := res + [Word("in"), Word("on"), Word(TextOf(r.ifaceIn))]; }
      if r.ifaceOut != [] {
        res := res + [Word("out"), Word("on"), Word(TextOf(r.ifaceOut))];
      } else if r.direction == Out {
        res := res + [Word("out")];
      }
      assert res == [Word(ActionText(r.action))] + DirToks(r);
      var body := FullBody(r);
      res := res + LogToks(r.log) + body + CommentToks(r.comment);
    }
    assert res == [Word(ActionText(r.action))] + DirToks(r) + LogToks(r.log) + BodyToks(r) + CommentToks(r.comment);
    Regroup([Word(ActionText(r.action))], DirToks(r), LogToks(r.log), BodyToks(r), CommentToks(r.comment));
    if r.Forward() { res := [Word("route")] + res; } else { assert [] + res == res; }
  }

  lemma Regroup(a: seq<Tok>, d: seq<Tok>, l: seq<Tok>, b: seq<Tok>, c: seq<Tok>)
    ensures a + d + l + b + c == a + (d + (l + (b + c)))
  {
  }

  method FullBody(r: Rule) returns (res: seq<Tok>)
    ensures res == Spell(Body(r))
  {
    hide Spell, PrintsAny, LocTok, SpansOf;
    SpellNothing();
    var from := SideToks("from", r.src, r.sapp);
    var to := SideToks("to", r.dst, r.dapp);
    SpellAppend(Side("from", r.src, r.sapp), Side("to", r.dst, r.dapp));
    res := from + to;
    var sides := Side("from", r.src, r.sapp) + Side("to", r.dst, r.dapp);
    if sides == [] && r.ifaceIn == [] && r.ifaceOut == [] {
      res := [Word("to"), Word("any")];
      SpellOne(Clause("to", Word("any")));
    }
    assert res == Spell(Sides(r));
    if r.proto != NoProto && r.proto != AnyProto && r.dapp == "" && r.sapp == "" {
      res := res + [Word("proto"), Word(Text(r.proto))];
      SpellOne(ProtoClause(r)[0]);
    }
    if r.icmpType.Some? {
      res := res + [Word("type"), Tok.Ports([Span(r.icmpType.value, r.icmpType.value)], None)];
      SpellOne(TypeClause(r)[0]);
    }
    SpellAppend(ProtoClause(r), TypeClause(r));
    SpellAppend(Sides(r), ProtoClause(r) + TypeClause(r));
    assert res == Spell(Sides(r)) + (Spell(ProtoClause(r)) + Spell(TypeClause(r)));
  }

  method SideToks(key: string, a: AddrSpec, app: string) returns (res: seq<Tok>)
    ensures res == Spell(Side(key, a, app))
  {
    hide Spell, SpansOf, PrintsAny, LocTok;
    SpellNothing();
    res := [];
    if !PrintsAny(a) || a.ports != [] || app != "" {
      var loc := LocToks(a);
      res := [Word(key)] + loc;
      SpellOne(Clause(key, LocTok(a)));
      SpelledLoc(a);
      if app != "" || a.ports != [] {
        var second := if app != "" then Clause("app", Word(app)) else Clause("port", Tok.Ports(SpansOf(a.ports), None));
        res := res + [Word(second.key), second.value];
        SpellOne(second);
        SpellAppend([Clause(key, LocTok(a))], [second]);
      } else {
        assert [Clause(key, LocTok(a))] + [] == [Clause(key, LocTok(a))];
      }
    }
  }

  // A set is two words, an address one.
  function LocToks(a: AddrSpec): seq<Tok>
  {
    if a.setName != "" then [Word("set"), Word(a.setName)] else if PrintsAny(a) then [Word("any")] else [Address(a.ip)]
  }

  lemma SpelledLoc(a: AddrSpec)
    ensures LocToks(a) == if LocTok(a).SetRef? then [Word("set"), Word(LocTok(a).name)] else [LocTok(a)]
  {
    hide PrintsAny;
  }

  lemma SpellNothing()
    ensures Spell([]) == []
  {
  }

  lemma SpellOne(c: Clause)
    ensures Spell([c]) == if c.value.SetRef?
            then [Word(c.key), Word("set"), Word(c.value.name)] else [Word(c.key), c.value]
  {
    assert [c][1..] == [];
  }

  lemma {:induction false} SpellAppend(a: seq<Clause>, b: seq<Clause>)
    ensures Spell(a + b) == Spell(a) + Spell(b)
  {
    if a == [] {
      assert a + b == b;
    } else {
      assert (a + b)[1..] == a[1..] + b;
      SpellAppend(a[1..], b);
    }
  }

  // ---- which rules ----

  function EndType(a: AddrSpec): AddrType
  {
    if a.setName != "" || a.ip.Any() then AnyType else if Width(a.ip) == 16 then V6 else V4
  }

  ghost predicate EndShape(a: AddrSpec, q: Proto)
  {
    && (a.setName != "" ==> a.ip == AnyAddr)
    && (a.ip == AnyAddr || a.ip.Host? || a.ip.Cidr?) && a.ip.Valid() && CanonAddr(a) == a.ip
    && (forall i :: 0 <= i < |a.ports| ==> a.ports[i].proto == q && 1 <= a.ports[i].lo <= a.ports[i].hi)
    && Separators(SpansOf(a.ports)) <= 14 && Ordered(a.ports)
  }

  predicate IfaceShape(n: Name) { n == [] || IfaceText(TextOf(n)) }

  // What the parser returns for rules without apps and expiry.
  ghost predicate Shaped(r: Rule)
  {
    && r.action in {Allow, Deny, Reject, Limit} && !r.IsApp() && !r.disabled && r.expiresAt == 0
    && (r.proto == AnyProto || r.proto == Tcp || r.proto == Udp || Grammar.Portless(r.proto))
    && IfaceShape(r.ifaceIn) && IfaceShape(r.ifaceOut)
    && (r.icmpType.Some? ==> r.icmpType.value <= 255 && (r.proto == Icmp || r.proto == Icmpv6))
    && EndShape(r.src, r.proto) && EndShape(r.dst, r.proto)
    && TypeOf(EndType(r.src), EndType(r.dst)).Ok? && VerifyPass(r, TypeOf(EndType(r.src), EndType(r.dst)).value).Ok?
    && (if r.direction == Routed then r.routeDir == In || r.routeDir == Out
        else (r.direction == In || r.direction == Out) && r.routeDir == NoDirection)
    && '\'' !in r.comment
  }

  // Wildcards are stored as "any".
  predicate WildAsAny(r: Rule)
  {
    Widest(r.src.ip) == r.src.ip && Widest(r.dst.ip) == r.dst.ip
  }

  // A name that is no word of the grammar.
  predicate Free(s: string)
  {
    s !in {"in", "out", "on", "log", "log-all", "comment", "expires", "from", "to", "set", "port", "proto", "type",
        "app",
           "delete", "insert", "prepend", "route", "rule"}
  }

  predicate FreeNames(r: Rule)
  {
    && Free(TextOf(r.ifaceIn)) && Free(TextOf(r.ifaceOut)) && Free(r.comment) && Free(r.src.setName)
    && Free(r.dst.setName)
  }

  // The direction a command conveys.
  function Conveyed(r: Rule): Direction
  {
    if r.ifaceIn != [] then In
    else if r.ifaceOut != [] || r.direction == Out then Out
    else In
  }

  function StoredDir(r: Rule): Direction { if r.Forward() then r.routeDir else r.direction }

  // Commands with a second clause only route rules can carry.
  predicate Readable(r: Rule)
  {
    r.Forward() || r.ifaceIn == [] || (r.ifaceOut == [] && r.direction != Out)
  }

  // The rule's direction is what its command conveys.
  predicate Direct(r: Rule) { Readable(r) && StoredDir(r) == Conveyed(r) }

  function Redirected(r: Rule): Rule
  {
    if r.Forward() then r.(routeDir := Conveyed(r)) else r.(direction := Conveyed(r))
  }

  // ---- clauses ----

  function Flatten(cs: seq<Clause>): seq<Tok>
  {
    if cs == [] then [] else [Word(cs[0].key), cs[0].value] + Flatten(cs[1..])
  }

  predicate GoodClause(c: Clause)
  {
    && IsKey(Word(c.key)) && !IsKey(c.value) && c.value != Word("set")
    && (c.value.SetRef? ==> (c.key == "from" || c.key == "to") && Free(c.value.name))
  }

  predicate GoodClauses(cs: seq<Clause>)
  {
    forall i :: 0 <= i < |cs| ==> GoodClause(cs[i])
  }

  lemma {:induction false} FlattenLength(cs: seq<Clause>)
    ensures |Flatten(cs)| == 2 * |cs|
  {
    if cs != [] { FlattenLength(cs[1..]); }
  }

  lemma {:induction false} FlattenAppend(a: seq<Clause>, b: seq<Clause>)
    ensures Flatten(a + b) == Flatten(a) + Flatten(b)
  {
    if a == [] {
      assert a + b == b;
    } else {
      assert (a + b)[1..] == a[1..] + b;
      FlattenAppend(a[1..], b);
    }
  }

  // Folding undoes spelling.
  lemma {:induction false} FoldSpell(cs: seq<Clause>)
    requires GoodClauses(cs)
    ensures FoldSets(Spell(cs)) == Ok(Flatten(cs))
  {
    if cs != [] {
      assert forall i :: 0 <= i < |cs[1..]| ==> cs[1..][i] == cs[i + 1];
      FoldSpell(cs[1..]);
      var c, rest := cs[0], Spell(cs[1..]);
      assert GoodClause(c);
      if c.value.SetRef? {
        var all := [Word(c.key), Word("set"), Word(c.value.name)] + rest;
        assert Spell(cs) == all && all[3..] == rest;
        assert Flatten(cs) == [Word(c.key), c.value] + Flatten(cs[1..]);
      } else {
        assert Spell(cs) == [Word(c.key), c.value] + rest;
        FoldPair(Word(c.key), c.value, rest);
      }
    }
  }

  lemma FoldPair(k: Tok, v: Tok, rest: seq<Tok>)
    requires v != Word("set") && !IsKey(v) && FoldSets(rest).Ok?
    ensures FoldSets([k, v] + rest) == Ok([k, v] + FoldSets(rest).value)
  {
    var all := [k, v] + rest;
    assert all[1..] == [v] + rest && all[1..][1..] == rest;
    assert FoldSets([v] + rest) == Ok([v] + FoldSets(rest).value) by {
      if rest == [] { assert [v] + rest == [v]; }
    }
    assert [k] + ([v] + FoldSets(rest).value) == [k, v] + FoldSets(rest).value;
  }

  // A leading word that starts no set reference stays.
  lemma FoldHead(h: Tok, rest: seq<Tok>)
    requires h != Word("from") && h != Word("to") && FoldSets(rest).Ok?
    ensures FoldSets([h] + rest) == Ok([h] + FoldSets(rest).value)
  {
    assert ([h] + rest)[1..] == rest;
  }

  // ---- the clause loop on clauses ----

  function ApplyClauses(c: Clauses, cs: seq<Clause>, seen: bool): Result<Clauses>
    decreases |cs|
  {
    if cs == [] then Ok(c)
    else
      var d := ClauseAt(c, Word(cs[0].key), Some(cs[0].value), seen);
      if d.Err? then Err else ApplyClauses(d.value, cs[1..], seen || cs[0].key == "proto")
  }

  lemma {:induction false} LoopIsApply(pre: seq<Tok>, cs: seq<Clause>, c: Clauses)
    requires GoodClauses(cs) && |pre| % 2 == 1
    ensures ClauseLoop(pre + Flatten(cs), |pre|, c) == ApplyClauses(c, cs, Word("proto") in pre)
    decreases |cs|
  {
    hide ClauseAt, GoodClause, ClauseLoop, IsKey, Flatten;
    if cs == [] {
      assert pre + Flatten(cs) == pre by { FlattenLength(cs); }
      LoopEnds(pre, c);
    } else {
      var k, v, rest := Word(cs[0].key), cs[0].value, cs[1..];
      assert GoodClause(cs[0]);
      LoopStep(pre, cs[0], Flatten(rest), c);
      assert pre + Flatten(cs) == pre + ([k, v] + Flatten(rest)) by { FlattenFirst(cs); }
      assert (pre + [k, v]) + Flatten(rest) == pre + ([k, v] + Flatten(rest));
      var d := ClauseAt(c, k, Some(v), Word("proto") in pre);
      if d.Ok? {
        assert forall i :: 0 <= i < |rest| ==> rest[i] == cs[i + 1];
        LoopIsApply(pre + [k, v], rest, d.value);
      }
    }
  }

  lemma FlattenFirst(cs: seq<Clause>)
    requires cs != []
    ensures Flatten(cs) == [Word(cs[0].key), cs[0].value] + Flatten(cs[1..])
  {
  }

  lemma LoopEnds(argv: seq<Tok>, c: Clauses)
    ensures ClauseLoop(argv, |argv|, c) == Ok(c)
  {
  }

  // One clause: its key sets something, its value is passed over.
  lemma LoopStep(pre: seq<Tok>, x: Clause, rest: seq<Tok>, c: Clauses)
    requires GoodClause(x) && |pre| % 2 == 1
    ensures var argv := pre + ([Word(x.key), x.value] + rest);
            var d := ClauseAt(c, Word(x.key), Some(x.value), Word("proto") in pre);
            ClauseLoop(argv, |pre|, c) == if d.Err? then Err else ClauseLoop(argv, |pre| + 2, d.value)
    ensures Word("proto") in pre + [Word(x.key), x.value] <==> Word("proto") in pre || x.key == "proto"
  {
    hide ClauseAt;
    var argv := pre + ([Word(x.key), x.value] + rest);
    assert argv[..|pre|] == pre && argv[|pre|] == Word(x.key) && argv[|pre| + 1] == x.value;
    var d := ClauseAt(c, Word(x.key), Some(x.value), Word("proto") in pre);
    if d.Ok? { SkipValue(argv, |pre| + 1, d.value); }
    assert x.value != Word("proto");
  }

  lemma SkipValue(argv: seq<Tok>, i: nat, c: Clauses)
    requires i < |argv| && i % 2 == 0 && !IsKey(argv[i])
    ensures ClauseLoop(argv, i, c) == ClauseLoop(argv, i + 1, c)
  {
  }

  lemma {:induction false} ApplyAppend(c: Clauses, a: seq<Clause>, b: seq<Clause>, seen: bool)
    ensures ApplyClauses(c, a + b, seen) ==
            (var d := ApplyClauses(c, a, seen);
             if d.Err? then Err else ApplyClauses(d.value, b, seen || exists i :: 0 <= i < |a| && a[i].key == "proto"))
    decreases |a|
  {
    hide ClauseAt;
    if a == [] {
      assert a + b == b;
    } else {
      assert (a + b)[1..] == a[1..] + b && (a + b)[0] == a[0];
      var d := ClauseAt(c, Word(a[0].key), Some(a[0].value), seen);
      if d.Ok? {
        ApplyAppend(d.value, a[1..], b, seen || a[0].key == "proto");
        assert (exists i :: 0 <= i < |a| && a[i].key == "proto") <==>
               a[0].key == "proto" || exists i :: 0 <= i < |a[1..]| && a[1..][i].key == "proto" by {
          if i :| 0 <= i < |a| && a[i].key == "proto" && i > 0 { assert a[1..][i - 1].key == "proto"; }
          if i :| 0 <= i < |a[1..]| && a[1..][i].key == "proto" { assert a[i + 1].key == "proto"; }
        }
      }
    }
  }

  // ---- what one endpoint parses to ----

  // The endpoint as the loop leaves it: no address for a set, and ranges
  // without a protocol.
  function Parsed(a: AddrSpec): AddrSpec
  {
    AddrSpec(if a.setName != "" then NoAddr else a.ip, Bare(a.ports), a.setName)
  }

  function Bare(ports: seq<PortRange>): (r: seq<PortRange>)
    ensures |r| == |ports|
  {
    seq(|ports|, i requires 0 <= i < |ports| => ports[i].(proto := NoProto))
  }

  lemma PortsParse(ports: seq<PortRange>)
    requires ports != [] && Separators(SpansOf(ports)) <= 14
    requires forall i :: 0 <= i < |ports| ==> 1 <= ports[i].lo <= ports[i].hi
    ensures SpansOk(SpansOf(ports)) && Grammar.Ranges(SpansOf(ports), NoProto) == Bare(ports)
  {
    hide Separators;
  }

  lemma LocParses(a: AddrSpec, q: Proto)
    requires EndShape(a, q) && Widest(a.ip) == a.ip
    ensures ParseAddr(LocTok(a)) == Ok((if a.setName != "" then NoAddr else a.ip, a.setName, EndType(a)))
  {
    hide Separators, CanonAddr;
    AnyLower();
  }

  lemma AnyLower()
    ensures Lower("any") == "any"
  {
    var s := "any";
    assert Lower(s)[0] == 'a' && Lower(s)[1] == 'n' && Lower(s)[2] == 'y';
  }

  lemma PortApplies(c: Clauses, source: bool, ports: seq<PortRange>, seen: bool)
    requires ports != [] && Separators(SpansOf(ports)) <= 14 && c.loc == Some(source)
    requires forall i :: 0 <= i < |ports| ==> 1 <= ports[i].lo <= ports[i].hi
    ensures ApplyClauses(c, [Clause("port", Tok.Ports(SpansOf(ports), None))], seen) ==
            Ok(c.(r := WithEnd(c.r, source, EndOf(c.r, source).(ports := Bare(ports)))))
  {
    PortsParse(ports);
    var second := Clause("port", Tok.Ports(SpansOf(ports), None));
    assert [second][1..] == [];
  }

  // One side's clauses set exactly that endpoint.
  lemma SideApplies(c: Clauses, source: bool, a: AddrSpec, q: Proto, seen: bool)
    requires EndShape(a, q) && Widest(a.ip) == a.ip && EndOf(c.r, source) == AddrSpec(AnyAddr, [], "")
    requires (if source then c.fromType else c.toType) == AnyType
    ensures var d := ApplyClauses(c, Side(if source then "from" else "to", a, ""), seen);
            && d.Ok? && d.value.r == WithEnd(c.r, source, Parsed(a))
            && d.value.fromType == (if source then EndType(a) else c.fromType)
            && d.value.toType == (if source then c.toType else EndType(a))
  {
    hide Separators, CanonAddr, ParseAddr, LocTok, SetIface, SpansOk, ProtoOf;
    var key := if source then "from" else "to";
    if PrintsAny(a) && a.ports == [] {
      assert Bare(a.ports) == [];
    } else {
      LocParses(a, q);
      var first := Clause(key, LocTok(a));
      var d := ClauseAt(c, Word(key), Some(LocTok(a)), seen).value;
      if a.ports == [] {
        assert Side(key, a, "") == [first] && [first][1..] == [];
        assert Bare(a.ports) == [];
      } else {
        PortsParse(a.ports);
        var second := Clause("port", Tok.Ports(SpansOf(a.ports), None));
        PortApplies(d, source, a.ports, seen);
        assert Side(key, a, "") == [first, second] && [first, second][1..] == [second] && [second][1..] == [];
        assert key != "proto";
        assert ApplyClauses(c, [first, second], seen) == ApplyClauses(d, [second], seen);
      }
    }
  }

  lemma ProtoText(q: Proto)
    requires q == AnyProto || q == Tcp || q == Udp || Grammar.Portless(q)
    ensures ProtoOf(Text(q)) == Some(q)
    ensures !IsKey(Word(Text(q))) && Word(Text(q)) != Word("set")
    ensures Free(Text(q))
  {
  }

  lemma ProtoApplies(c: Clauses, r: Rule)
    requires Shaped(r) && c.r.proto == AnyProto
    ensures ApplyClauses(c, ProtoClause(r), false) == Ok(c.(r := c.r.(proto := r.proto)))
  {
    hide EndShape, ParseAddr, SetIface, SetPort, Text;
    if r.proto != AnyProto {
      ProtoText(r.proto);
      assert ProtoClause(r)[1..] == [];
    }
  }

  lemma TypeApplies(c: Clauses, r: Rule, seen: bool)
    requires Shaped(r) && c.r.proto == r.proto && c.r.icmpType == None && (r.proto != AnyProto ==> seen)
    ensures ApplyClauses(c, TypeClause(r), seen) == Ok(c.(r := c.r.(icmpType := r.icmpType)))
  {
    hide EndShape, ParseAddr, SetIface, SetPort, Text, ProtoOf;
    if r.icmpType.Some? { assert TypeClause(r)[1..] == []; }
  }

  // The rule before protocols are stamped onto the ports.
  function Unstamped(start: Rule, r: Rule): Rule
  {
    start.(src := Parsed(r.src), dst := Parsed(r.dst), proto := r.proto, icmpType := r.icmpType)
  }

  lemma GenericApplies(c: Clauses, r: Rule)
    requires c.r.dst.ip == AnyAddr && c.r.dst.setName == ""
    ensures ApplyClauses(c, [Clause("to", Word("any"))], false) == Ok(Clauses(c.r, Some(false), c.fromType, AnyType))
  {
    AnyLower();
    assert [Clause("to", Word("any"))][1..] == [];
    assert c.r.dst.(ip := AnyAddr, setName := "") == c.r.dst;
  }

  lemma SidesApply(start: Rule, r: Rule)
    requires Shaped(r) && WildAsAny(r) && start.src == AddrSpec(AnyAddr, [], "")
             && start.dst == AddrSpec(AnyAddr, [], "")
    ensures var d := ApplyClauses(Clauses(start, None, AnyType, AnyType), Sides(r), false);
            && d.Ok? && d.value.r == start.(src := Parsed(r.src), dst := Parsed(r.dst))
            && d.value.fromType == EndType(r.src) && d.value.toType == EndType(r.dst)
    ensures forall i :: 0 <= i < |Sides(r)| ==> Sides(r)[i].key != "proto"
  {
    hide ClauseAt, EndShape, LocTok, PrintsAny, SpansOf;
    var c := Clauses(start, None, AnyType, AnyType);
    EndBounds(r.src, r.proto);
    EndBounds(r.dst, r.proto);
    SideApplies(c, true, r.src, r.proto, false);
    var d := ApplyClauses(c, Side("from", r.src, r.sapp), false).value;
    SideApplies(d, false, r.dst, r.proto, false);
    ApplyAppend(c, Side("from", r.src, r.sapp), Side("to", r.dst, r.dapp), false);
    var s := Side("from", r.src, r.sapp) + Side("to", r.dst, r.dapp);
    if s == [] {
      GenericApplies(c, r);
      GenericApplies(d, r);
      assert Side("from", r.src, r.sapp) == [] && Side("to", r.dst, r.dapp) == [];
      assert ApplyClauses(c, [], false) == Ok(c);
    }
  }

  lemma EndBounds(a: AddrSpec, q: Proto)
    requires EndShape(a, q)
    ensures forall i :: 0 <= i < |a.ports| ==> 1 <= a.ports[i].lo <= a.ports[i].hi
  {
  }

  lemma BodyApplies(start: Rule, r: Rule)
    requires Shaped(r) && WildAsAny(r) && start.src == AddrSpec(AnyAddr, [], "")
             && start.dst == AddrSpec(AnyAddr, [], "")
    requires start.proto == AnyProto && start.icmpType == None
    ensures var d := ApplyClauses(Clauses(start, None, AnyType, AnyType), Body(r), false);
            && d.Ok? && d.value.r == Unstamped(start, r)
            && d.value.fromType == EndType(r.src) && d.value.toType == EndType(r.dst)
  {
    hide ClauseAt, EndShape, Sides, Parsed, Text;
    EndBounds(r.src, r.proto);
    EndBounds(r.dst, r.proto);
    var c := Clauses(start, None, AnyType, AnyType);
    SidesApply(start, r);
    var d := ApplyClauses(c, Sides(r), false).value;
    ProtoApplies(d, r);
    var e := d.(r := d.r.(proto := r.proto));
    TypeApplies(e, r, r.proto != AnyProto);
    ApplyAppend(d, ProtoClause(r), TypeClause(r), false);
    ApplyAppend(c, Sides(r), ProtoClause(r) + TypeClause(r), false);
    if r.proto != AnyProto { assert ProtoClause(r)[0].key == "proto"; }
  }
}
