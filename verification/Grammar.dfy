/** The rule grammar on tokens: the parser, and the canonical command that
    echoes a rule. Numbers, port lists and addresses are tokens of their own;
    everything else is a word. */
module Grammar {
  import opened Bytes
  import opened AddressSets
  import opened Outcomes
  import opened Rules
  import opened Prefixes
  import opened Normalization

  // ---- tokens ----

  // One port or a range of ports.
  datatype Span = Span(lo: nat, hi: nat)

  datatype Tok =
    | Word(text: string)
    | Ports(spans: seq<Span>, proto: Option<string>)    // 80,443 or 80/tcp
    | Address(addr: Addr)                               // a host or prefix
    | SetRef(name: string)                              // set:NAME
    | Duration(seconds: nat)                            // of an expires clause

  function LowerChar(c: char): char
  {
    if 'A' <= c <= 'Z' then ((c as int) + 32) as char else c
  }

  function Lower(s: string): (r: string)
    ensures |r| == |s|
  {
    seq(|s|, i requires 0 <= i < |s| => LowerChar(s[i]))
  }

  predicate LowerIs(t: Tok, w: string) { t.Word? && Lower(t.text) == w }

  predicate IsDirTok(t: Tok) { LowerIs(t, "in") || LowerIs(t, "out") }

  predicate IsLogTok(t: Tok) { LowerIs(t, "log") || LowerIs(t, "log-all") }

  // A token that reads as one number.
  predicate Numeric(t: Tok) { t.Ports? && t.proto == None && |t.spans| == 1 && t.spans[0].lo == t.spans[0].hi }

  // Numbers that fit the machine's int; a position beyond it is taken as the
  // largest one.
  const MaxInt: nat := 0x7fff_ffff_ffff_ffff

  predicate Small(t: Tok) { Numeric(t) && t.spans[0].lo <= MaxInt }

  function PositionOf(t: Tok): nat
    requires Numeric(t)
  {
    if t.spans[0].lo <= MaxInt then t.spans[0].lo else MaxInt
  }

  // indexTok: where the word first occurs.
  function IndexTok(argv: seq<Tok>, w: string): (i: Option<nat>)
    ensures i.Some? ==> i.value < |argv| && argv[i.value] == Word(w) && Word(w) !in argv[..i.value]
    ensures i.None? <==> Word(w) !in argv
  {
    if argv == [] then None
    else if argv[0] == Word(w) then Some(0)
    else
      var rest := IndexTok(argv[1..], w);
      assert argv == [argv[0]] + argv[1..];
      if rest.None? then None
      else
        assert argv[..rest.value + 1] == [argv[0]] + argv[1..][..rest.value];
        Some(rest.value + 1)
  }

  function CountTok(argv: seq<Tok>, w: string): nat
  {
    if argv == [] then 0 else (if argv[0] == Word(w) then 1 else 0) + CountTok(argv[1..], w)
  }

  // ---- words ----

  function ActionText(a: Action): string
  {
    match a
    case Allow => "allow"
    case Deny => "deny"
    case Reject => "reject"
    case Limit => "limit"
    case OtherAction(n) => n
  }

  function ActionOf(t: Tok): Option<Action>
  {
    if t == Word("allow") then Some(Allow)
    else if t == Word("deny") then Some(Deny)
    else if t == Word("reject") then Some(Reject)
    else if t == Word("limit") then Some(Limit)
    else None
  }

  // set_protocol accepts "any" and the supported protocols.
  function ProtoOf(text: string): Option<Proto>
  {
    if text == "any" then Some(AnyProto)
    else if text == "tcp" then Some(Tcp)
    else if text == "udp" then Some(Udp)
    else if text == "ipv6" then Some(Ipv6)
    else if text == "esp" then Some(Esp)
    else if text == "ah" then Some(Ah)
    else if text == "igmp" then Some(Igmp)
    else if text == "gre" then Some(Gre)
    else if text == "vrrp" then Some(Vrrp)
    else if text == "icmp" then Some(Icmp)
    else if text == "icmpv6" then Some(Icmpv6)
    else None
  }

  predicate Portless(q: Proto)
  {
    q in {Ipv6, Esp, Ah, Igmp, Gre, Vrrp, Icmp, Icmpv6}
  }

  predicate IPv4Only(q: Proto) { q == Ipv6 || q == Igmp || q == Icmp }

  predicate IfaceChar(c: char)
  {
    'a' <= c <= 'z' || 'A' <= c <= 'Z' || '0' <= c <= '9' || c in "_-.+,=%@"
  }

  // set_interface.
  predicate IfaceText(s: string)
  {
    s != "." && s != ".." && s != "" && |s| <= 15 && forall i :: 0 <= i < |s| ==> IfaceChar(s[i])
  }

  function NameOf(s: string): (n: Name)
    requires IfaceText(s)
    ensures |n| == |s|
  {
    assert forall i :: 0 <= i < |s| ==> IfaceChar(s[i]);
    seq(|s|, i requires 0 <= i < |s| => s[i] as int)
  }

  function TextOf(n: Name): (s: string)
    ensures |s| == |n|
  {
    seq(|n|, i requires 0 <= i < |n| => n[i] as char)
  }

  lemma TextRoundTrip(n: Name)
    requires IfaceText(TextOf(n))
    ensures NameOf(TextOf(n)) == n
  {
  }

  // ---- the passes of the parser ----

  // A word between two others.
  predicate Inside(argv: seq<Tok>, w: string)
  {
    exists i :: 0 < i < |argv| - 1 && argv[i] == Word(w)
  }

  // "in on" or "out on" with something before and after.
  predicate OnClause(argv: seq<Tok>, w: string)
  {
    exists i :: 0 < i < |argv| - 2 && argv[i] == Word(w) && argv[i + 1] == Word("on")
  }

  predicate DeletesNumber(argv: seq<Tok>)
  {
    exists i :: 0 <= i < |argv| - 1 && argv[i] == Word("delete") && Small(argv[i + 1])
  }

  // What is left after "route" and a second interface clause.
  datatype Routing = Routing(argv: seq<Tok>, routed: bool, deferred: Option<(bool, string)>)

  function DropRule(argv: seq<Tok>): seq<Tok>
  {
    if argv != [] && LowerIs(argv[0], "rule") then argv[1..] else argv
  }

  function RoutePass(args: seq<Tok>): Result<Routing>
  {
    if args == [] || !LowerIs(args[0], "route") then Ok(Routing(DropRule(args), false, None))
    else DeferPass(DropRule(args[1..]))
  }

  function DeferPass(argv: seq<Tok>): Result<Routing>
  {
    if DeletesNumber(argv) then Err
    else if OnClause(argv, "in") && OnClause(argv, "out") then
      var i, o := IndexTok(argv, "in"), IndexTok(argv, "out");
      if i.None? || o.None? then Err
      else
        var inbound := i.value > o.value;
        var k := if inbound then i.value else o.value;
        if k + 2 < |argv|
            && argv[k + 2].Word? then Ok(Routing(argv[..k] + argv[k + 3..], true, Some((inbound, argv[k + 2].text))))
        else Err
    else if !OnClause(argv, "in") && !OnClause(argv, "out") && (Inside(argv, "in") || Inside(argv, "out")) then Err
    else Ok(Routing(argv, true, None))
  }

  datatype Kind = Add | Delete | Insert | Prepend

  datatype Dispatched = ByNumber(n: nat) | Rest(kind: Kind, num: nat, argv: seq<Tok>)

  function DispatchPass(argv: seq<Tok>): Result<Dispatched>
  {
    if argv == [] then Err
    else if LowerIs(argv[0], "delete") then
      if |argv| == 1 then Err
      else if Small(argv[1]) then Ok(ByNumber(argv[1].spans[0].lo))
      else Ok(Rest(Delete, 0, argv[1..]))
    else if LowerIs(argv[0], "insert") then
      if |argv| < 4 || !Numeric(argv[1]) then Err else Ok(Rest(Insert, PositionOf(argv[1]), argv[2..]))
    else if LowerIs(argv[0], "prepend") then
      if |argv| == 1 then Err else Ok(Rest(Prepend, 0, argv[1..]))
    else Ok(Rest(Add, 0, argv))
  }

  function DirectionOf(t: Tok): Direction { if LowerIs(t, "out") then Out else In }

  // A bare direction is dropped; one before "on" stays.
  function DirPass(argv: seq<Tok>): (seq<Tok>, Direction)
    requires |argv| >= 2
  {
    if |argv| > 2 && argv[2] != Word("on") && IsDirTok(argv[1]) then (argv[..1] + argv[2..], DirectionOf(argv[1]))
    else (argv, DirectionOf(argv[1]))
  }

  function IfacePass(argv: seq<Tok>): Result<(seq<Tok>, bool)>
  {
    if |argv| > 1 && (Word("in") in argv || Word("out") in argv) then
      if !IsDirTok(argv[1]) || |argv| < 3 || !LowerIs(argv[2], "on") then Err
      else Ok((argv[..2] + argv[3..], true))
    else Ok((argv, false))
  }

  function LogOf(t: Tok): Log { if LowerIs(t, "log") then LogNew else LogAll }

  function LogPass(argv: seq<Tok>, hasIface: bool): Result<(seq<Tok>, Log)>
  {
    var k := if hasIface && |argv| > 3
        && IsLogTok(argv[3]) then 3 else if |argv| > 2 && IsLogTok(argv[1]) then 1 else 0;
    var rest := if k > 0 then argv[..k] + argv[k + 1..] else argv;
    if Word("log") in rest || Word("log-all") in rest then Err
    else Ok((rest, if k > 0 then LogOf(argv[k]) else LogNone))
  }

  function CommentPass(argv: seq<Tok>): Result<(seq<Tok>, string)>
  {
    var i := IndexTok(argv, "comment");
    if i.None? then Ok((argv, ""))
    else if i.value == |argv| - 1 || !argv[i.value + 1].Word? || '\'' in argv[i.value + 1].text then Err
    else Ok((argv[..i.value] + argv[i.value + 2..], argv[i.value + 1].text))
  }

  function ExpiresPass(argv: seq<Tok>, now: int): Result<(seq<Tok>, int)>
  {
    var i := IndexTok(argv, "expires");
    if i.None? then Ok((argv, 0))
    else if i.value == |argv| - 1 || !argv[i.value + 1].Duration? then Err
    else Ok((argv[..i.value] + argv[i.value + 2..], now + argv[i.value + 1].seconds))
  }

  // "from set NAME" becomes one address token.
  function FoldSets(argv: seq<Tok>): Result<seq<Tok>>
  {
    if |argv| < 2 then Ok(argv)
    else if (argv[0] == Word("from") || argv[0] == Word("to")) && argv[1] == Word("set") then
      if |argv| < 3 || !argv[2].Word? then Err
      else
        var rest := FoldSets(argv[3..]);
        if rest.Err? then Err else Ok([argv[0], SetRef(argv[2].text)] + rest.value)
    else
      var rest := FoldSets(argv[1..]);
      if rest.Err? then Err else Ok([argv[0]] + rest.value)
  }

  // ---- clauses ----

  datatype AddrType = AnyType | V4 | V6

  // What parse_addr makes of a token; a set has no address of its own.
  function ParseAddr(t: Tok): Result<(Addr, string, AddrType)>
  {
    match t
    case SetRef(name) => if name == "" then Err else Ok((NoAddr, name, AnyType))
    case Word(w) => if Lower(w) == "any" then Ok((AnyAddr, "", AnyType)) else Err
    case Address(a) => if a.Host? || a.Cidr? then Ok((a, "", if Width(a) == 16 then V6 else V4)) else Err
    case _ => Err
  }

  function Separators(spans: seq<Span>): nat
  {
    if spans == [] then 0
    else Separators(spans[..|spans| - 1]) + (if |spans| > 1 then 1 else 0)
         + if spans[|spans| - 1].lo != spans[|spans| - 1].hi then 1 else 0
  }

  predicate SpanOk(s: Span) { 1 <= s.lo <= s.hi <= 65535 }

  predicate SpansOk(spans: seq<Span>)
  {
    spans != [] && Separators(spans) <= 14 && forall i :: 0 <= i < |spans| ==> SpanOk(spans[i])
  }

  // parse_port_ranges: the ranges carry no protocol yet.
  function Ranges(spans: seq<Span>, q: Proto): (r: seq<PortRange>)
    requires forall i :: 0 <= i < |spans| ==> SpanOk(spans[i])
    ensures |r| == |spans|
  {
    seq(|spans|, i requires 0 <= i < |spans| => assert SpanOk(spans[i]); PortRange(spans[i].lo, spans[i].hi, q))
  }

  function WithEnd(r: Rule, source: bool, a: AddrSpec): Rule { if source then r.(src := a) else r.(dst := a) }

  function EndOf(r: Rule, source: bool): AddrSpec { if source then r.src else r.dst }

  function SetIface(r: Rule, inbound: bool, t: Tok): Result<Rule>
  {
    if !t.Word? || !IfaceText(t.text) then Err
    else Ok(if inbound then r.(ifaceIn := NameOf(t.text)) else r.(ifaceOut := NameOf(t.text)))
  }

  function SetPort(r: Rule, source: bool, t: Tok): Result<Rule>
  {
    if !t.Ports? || t.proto.Some? || !SpansOk(t.spans) then Err
    else Ok(WithEnd(r, source, EndOf(r, source).(ports := Ranges(t.spans, NoProto))))
  }

  // The state of the clause loop.
  datatype Clauses = Clauses(r: Rule, loc: Option<bool>, fromType: AddrType, toType: AddrType)

  predicate IsKey(t: Tok)
  {
    t in {Word("proto"), Word("type"), Word("from"), Word("to"), Word("port"), Word("app"), Word("in"), Word("out")}
  }

  // One clause at position i; seen tells whether "proto" occurs before i.
  function ClauseAt(c: Clauses, key: Tok, value: Option<Tok>, seen: bool): Result<Clauses>
  {
    if value.None? then Err
    else if key == Word("proto") then
      var q := if value.value.Word? then ProtoOf(value.value.text) else None;
      if q.None? then Err else Ok(c.(r := c.r.(proto := q.value)))
    else if key == Word("type") then
      if !seen || !Numeric(value.value) || value.value.spans[0].lo > 255
          || (c.r.proto != Icmp && c.r.proto != Icmpv6) then Err
      else Ok(c.(r := c.r.(icmpType := Some(value.value.spans[0].lo))))
    else if key == Word("in") || key == Word("out") then
      var r := SetIface(c.r, key == Word("in"), value.value);
      if r.Err? then Err else Ok(c.(r := r.value))
    else if key == Word("from") then
      var a := ParseAddr(value.value);
      if a.Err? then Err
      else Ok(Clauses(c.r.(src := c.r.src.(ip := a.value.0, setName := a.value.1)), Some(true), a.value.2, c.toType))
    else if key == Word("to") then
      var a := ParseAddr(value.value);
      if a.Err? then Err
      else Ok(Clauses(c.r.(dst := c.r.dst.(ip := a.value.0, setName := a.value.1)), Some(false), c.fromType, a.value.2))
    else if key == Word("port") then
      if c.loc.None? then Err
      else
        var r := SetPort(c.r, c.loc.value, value.value);
        if r.Err? then Err else Ok(c.(r := r.value))
    else Err
  }

  // The loop visits every token; tokens at odd places must be keys, and a
  // value that is a key is read as one.
  function ClauseLoop(argv: seq<Tok>, i: nat, c: Clauses): Result<Clauses>
    requires i <= |argv|
    decreases |argv| - i
  {
    if i == |argv| then Ok(c)
    else if !IsKey(argv[i]) then if i % 2 != 0 then Err else ClauseLoop(argv, i + 1, c)
    else
      var d := ClauseAt(c, argv[i], if i + 1 < |argv| then Some(argv[i + 1]) else None, Word("proto") in argv[..i]);
      if d.Err? then Err else ClauseLoop(argv, i + 1, d.value)
  }

  predicate ProperCounts(argv: seq<Tok>)
  {
    && CountTok(argv, "to") <= 1 && CountTok(argv, "from") <= 1 && CountTok(argv, "proto") <= 1
    && CountTok(argv, "port") <= 2
    && CountTok(argv, "type") <= 1 && CountTok(argv, "in") <= 1 && CountTok(argv, "out") <= 1
    && CountTok(argv, "app") <= 2
    && !(CountTok(argv, "app") > 0 && CountTok(argv, "proto") > 0)
  }

  datatype IPType = Both | OnlyV4 | OnlyV6

  function TypeOf(from: AddrType, to: AddrType): Result<IPType>
  {
    if from == AnyType && to == AnyType then Ok(Both)
    else if from != AnyType && to != AnyType && from != to then Err
    else Ok(if (if from != AnyType then from else to) == V4 then OnlyV4 else OnlyV6)
  }

  // PORT[/PROTO] on the destination.
  function ShortToken(r: Rule, t: Tok): Result<Rule>
  {
    if !t.Ports? || !SpansOk(t.spans) then Err
    else
      var q := if t.proto.Some? then ProtoOf(t.proto.value) else Some(AnyProto);
      if q.None? || Portless(q.value) then Err
      else Ok(r.(proto := q.value, dst := r.dst.(ports := Ranges(t.spans, NoProto))))
  }

  function BodyPass(r: Rule, argv: seq<Tok>, hasIface: bool): Result<(Rule, IPType)>
  {
    if |argv| < 2 || |argv| > 13 then Err
    else if |argv| == 2 then
      var s := ShortToken(r, argv[1]);
      if s.Err? then Err else Ok((s.value, Both))
    else if hasIface && |argv| == 4 then
      var f := SetIface(r, LowerIs(argv[1], "in"), argv[2]);
      if f.Err? then Err
      else
        var s := ShortToken(f.value, argv[3]);
        if s.Err? then Err else Ok((s.value, Both))
    else if |argv| % 2 == 0 then Err
    else if Word("from") !in argv && Word("to") !in argv && Word("in") !in argv && Word("out") !in argv then Err
    else if !ProperCounts(argv) then Err
    else
      var c := ClauseLoop(argv, 0, Clauses(r, None, AnyType, AnyType));
      if c.Err? then Err
      else
        var t := TypeOf(c.value.fromType, c.value.toType);
        if t.Err? then Err else Ok((c.value.r, t.value))
  }

  predicate Multi(ports: seq<PortRange>)
  {
    |ports| > 1 || (|ports| == 1 && ports[0].lo != ports[0].hi)
  }

  // The family checks, then the protocol rules of verify().
  function VerifyPass(r: Rule, t: IPType): Result<IPType>
  {
    if r.proto == Icmpv6 && t == OnlyV4 then Err
    else
      var t6 := if r.proto == Icmpv6 && t == Both then OnlyV6 else t;
      var t4 := if IPv4Only(r.proto) && t6 == Both then OnlyV4 else t6;
      if IPv4Only(r.proto) && t4 == OnlyV6 then Err
      else if Portless(r.proto) && (r.src.ports != [] || r.dst.ports != []) then Err
      else if (Multi(r.src.ports) || Multi(r.dst.ports)) && r.proto != Tcp && r.proto != Udp then Err
      else Ok(t4)
  }

  function Stamp(ports: seq<PortRange>, q: Proto): (r: seq<PortRange>)
    ensures |r| == |ports|
  {
    seq(|ports|, i requires 0 <= i < |ports| => if ports[i].proto == NoProto then ports[i].(proto := q) else ports[i])
  }

  function Stamped(r: Rule): Rule
  {
    r.(src := r.src.(ports := Stamp(r.src.ports, r.proto)), dst := r.dst.(ports := Stamp(r.dst.ports, r.proto)))
  }

  // Route rules keep the direction aside and take the deferred interface.
  function RoutedRule(r: Rule, routing: Routing): Result<Rule>
  {
    if !routing.routed then Ok(r)
    else
      var moved := r.(routeDir := r.direction, direction := Routed);
      if routing.deferred.None? then Ok(moved)
      else SetIface(moved, routing.deferred.value.0, Word(routing.deferred.value.1))
  }

  datatype Op = RuleNumber(n: nat) | RuleOp(kind: Kind, num: nat, rule: Rule, ipType: IPType)

  function Fresh(action: Action, d: Direction, log: Log, comment: string, expiresAt: int): Rule
  {
    Rule("", action, d, NoDirection, [], [], AnyProto, None, AddrSpec(AnyAddr, [], ""), AddrSpec(AnyAddr, [], ""), "",
        "",
         log, comment, expiresAt, false, false)
  }

  // Everything after the direction is known.
  function RestPass(argv: seq<Tok>, d: Direction, routing: Routing, kind: Kind, num: nat, now: int): Result<Op>
    requires |argv| >= 1
  {
    var action := ActionOf(argv[0]);
    var f := IfacePass(argv);
    if action.None? || f.Err? then Err
    else
      var l := LogPass(f.value.0, f.value.1);
      if l.Err? then Err
      else
        var c := CommentPass(l.value.0);
        if c.Err? then Err
        else
          var e := ExpiresPass(c.value.0, now);
          if e.Err? then Err
          else
            var s := FoldSets(e.value.0);
            if s.Err? then Err
            else
              var b := BodyPass(Fresh(action.value, d, l.value.1, c.value.1, e.value.1), s.value, f.value.1);
              if b.Err? then Err
              else FinishPass(b.value.0, b.value.1, routing, kind, num)
  }

  function FinishPass(r: Rule, t: IPType, routing: Routing, kind: Kind, num: nat): Result<Op>
  {
    var v := VerifyPass(r, t);
    if v.Err? then Err
    else
      var q := RoutedRule(Stamped(r), routing);
      if q.Err? then Err else Ok(RuleOp(kind, num, Normal(q.value), v.value))
  }

  function Parse(args: seq<Tok>, now: int): Result<Op>
  {
    var routing := RoutePass(args);
    if routing.Err? then Err
    else
      var d := DispatchPass(routing.value.argv);
      if d.Err? then Err
      else
        match d.value
        case ByNumber(n) => Ok(RuleNumber(n))
        case Rest(kind, num, argv) =>
          if |argv| < 2 || ActionOf(argv[0]).None? then Err
          else RestPass(DirPass(argv).0, DirPass(argv).1, routing.value, kind, num, now)
  }

  // ---- the parser ----

  method FindTok(argv: seq<Tok>, w: string) returns (i: int)
    ensures i == if IndexTok(argv, w).Some? then IndexTok(argv, w).value else -1
  {
    for k := 0 to |argv|
      invariant Word(w) !in argv[..k]
    {
      if argv[k] == Word(w) {
        FirstIs(argv, w, k);
        return k;
      }
      assert argv[..k + 1] == argv[..k] + [argv[k]];
    }
    assert argv[..|argv|] == argv;
    return -1;
  }

  lemma FirstIs(argv: seq<Tok>, w: string, k: nat)
    requires k < |argv| && argv[k] == Word(w) && Word(w) !in argv[..k]
    ensures IndexTok(argv, w) == Some(k)
  {
    var i := IndexTok(argv, w);
    assert Word(w) in argv;
    assert forall j :: 0 <= j < k ==> argv[..k][j] == argv[j];
    assert forall j :: 0 <= j < i.value ==> argv[..i.value][j] == argv[j];
  }

  // One step of the folding.
  lemma FoldStep(t: seq<Tok>)
    requires |t| >= 2
    ensures if (t[0] == Word("from") || t[0] == Word("to")) && t[1] == Word("set")
            then FoldSets(t) == (if |t| < 3 || !t[2].Word? then Err
                                 else Behind([t[0], SetRef(t[2].text)], FoldSets(t[3..])))
            else FoldSets(t) == Behind([t[0]], FoldSets(t[1..]))
  {
  }

  function Behind(pre: seq<Tok>, r: Result<seq<Tok>>): Result<seq<Tok>>
  {
    if r.Err? then Err else Ok(pre + r.value)
  }

  lemma BehindBoth(a: seq<Tok>, b: seq<Tok>, r: Result<seq<Tok>>)
    ensures Behind(a, Behind(b, r)) == Behind(a + b, r)
  {
    if r.Ok? { assert a + (b + r.value) == a + b + r.value; }
  }

  lemma BehindNothing(r: Result<seq<Tok>>)
    ensures Behind([], r) == r
  {
    if r.Ok? { assert [] + r.value == r.value; }
  }

  method FoldSetTokens(args: seq<Tok>) returns (r: Result<seq<Tok>>)
    ensures r == FoldSets(args)
  {
    hide FoldSets, Behind;
    var argv := args;
    var i := 0;
    ghost var tail := args;
    assert argv[0..] == args && argv[..0] == [];
    BehindNothing(FoldSets(args));
    while i + 1 < |argv|
      invariant 0 <= i <= |argv| && tail == argv[i..]
      invariant FoldSets(args) == Behind(argv[..i], FoldSets(tail))
      decreases |argv| - i
    {
      assert tail[0] == argv[i] && tail[1] == argv[i + 1];
      FoldStep(tail);
      if (argv[i] == Word("from") || argv[i] == Word("to")) && argv[i + 1] == Word("set") {
        if i + 2 >= |argv| || !argv[i + 2].Word? {
          BehindErr(argv[..i]);
          return Err;
        }
        var folded := SetRef(argv[i + 2].text);
        BehindBoth(argv[..i], [argv[i], folded], FoldSets(tail[3..]));
        assert tail[3..] == argv[i + 3..];
        argv := argv[..i] + [argv[i], folded] + argv[i + 3..];
        assert argv[i + 2..] == tail[3..] && argv[..i + 2] == argv[..i] + [argv[i], folded];
        i := i + 2;
      } else {
        BehindBoth(argv[..i], [argv[i]], FoldSets(tail[1..]));
        assert tail[1..] == argv[i + 1..] && argv[..i + 1] == argv[..i] + [argv[i]];
        i := i + 1;
      }
      tail := argv[i..];
    }
    FoldEnd(argv[..i], tail);
    assert argv == argv[..i] + tail;
    return Ok(argv);
  }

  lemma BehindErr(pre: seq<Tok>)
    ensures Behind(pre, Err) == Err
  {
  }

  lemma FoldEnd(pre: seq<Tok>, t: seq<Tok>)
    requires |t| < 2
    ensures Behind(pre, FoldSets(t)) == Ok(pre + t)
  {
  }

  // The clause loop of the full form.
  method ParseClauses(r: Rule, argv: seq<Tok>) returns (res: Result<Clauses>)
    ensures res == ClauseLoop(argv, 0, Clauses(r, None, AnyType, AnyType))
  {
    hide ClauseAt, IsKey;
    var c := Clauses(r, None, AnyType, AnyType);
    for i := 0 to |argv|
      invariant ClauseLoop(argv, 0, Clauses(r, None, AnyType, AnyType)) == ClauseLoop(argv, i, c)
    {
      var arg := argv[i];
      if i % 2 != 0 && !IsKey(arg) { return Err; }
      if IsKey(arg) {
        var seen := FindTok(argv[..i], "proto");
        var d := ClauseAt(c, arg, if i + 1 < |argv| then Some(argv[i + 1]) else None, seen >= 0);
        if d.Err? { return Err; }
        c := d.value;
      }
    }
    return Ok(c);
  }

  // parseRuleArgs: the token list is rewritten pass by pass.
  method ParseRuleArgs(args: seq<Tok>, now: int) returns (res: Result<Op>)
    ensures res == Parse(args, now)
  {
    hide ClauseLoop, FoldSets, IndexTok, ProperCounts, DeferPass, VerifyPass, Normal, ShortToken, Lower, SetIface,
         TypeOf;
    var routing := RoutePass(args);
    if routing.Err? { return Err; }
    var dispatched := DispatchPass(routing.value.argv);
    if dispatched.Err? { return Err; }
    if dispatched.value.ByNumber? { return Ok(RuleNumber(dispatched.value.n)); }
    var kind, num, argv := dispatched.value.kind, dispatched.value.num, dispatched.value.argv;
    if |argv| < 2 { return Err; }
    var action := ActionOf(argv[0]);
    if action.None? { return Err; }
    var direction := DirectionOf(argv[1]);
    if |argv| > 2 && argv[2] != Word("on") && IsDirTok(argv[1]) {
      argv := argv[..1] + argv[2..];
    }
    res := ParseRest(argv, action.value, direction, routing.value, kind, num, now);
  }

  method ParseRest(rest: seq<Tok>, action: Action, direction: Direction, routing: Routing, kind: Kind, num: nat,
      now: int)
    returns (res: Result<Op>)
    requires |rest| >= 1 && ActionOf(rest[0]) == Some(action)
    ensures res == RestPass(rest, direction, routing, kind, num, now)
  {
    hide FoldSets, VerifyPass, Normal, ActionOf, Stamped, BodyPass, IfacePass, LogPass, CommentPass, ExpiresPass,
         RoutedRule;
    var argv := rest;
    var iface := StripIface(argv);
    if iface.Err? { return Err; }
    var hasIface := iface.value.1;
    var logged := StripLog(iface.value.0, hasIface);
    if logged.Err? { return Err; }
    var commented := StripComment(logged.value.0);
    if commented.Err? { return Err; }
    var expiring := StripExpires(commented.value.0, now);
    if expiring.Err? { return Err; }
    var folded := FoldSetTokens(expiring.value.0);
    if folded.Err? { return Err; }
    var b := ParseBody(Fresh(action, direction, logged.value.1, commented.value.1, expiring.value.1), folded.value,
        hasIface);
    if b.Err? { return Err; }
    var r := b.value.0;
    var v := VerifyPass(r, b.value.1);
    if v.Err? { return Err; }
    var q := RoutedRule(Stamped(r), routing);
    if q.Err? { return Err; }
    var n, _ := Normalize(q.value);
    return Ok(RuleOp(kind, num, n, v.value));
  }

  method StripIface(args: seq<Tok>) returns (r: Result<(seq<Tok>, bool)>)
    ensures r == IfacePass(args)
  {
    var argv := args;
    if |argv| > 1 && (Word("in") in argv || Word("out") in argv) {
      if !IsDirTok(argv[1]) { return Err; }
      if |argv| < 3 || !LowerIs(argv[2], "on") { return Err; }
      argv := argv[..2] + argv[3..];
      return Ok((argv, true));
    }
    return Ok((argv, false));
  }

  method StripLog(args: seq<Tok>, hasIface: bool) returns (r: Result<(seq<Tok>, Log)>)
    ensures r == LogPass(args, hasIface)
  {
    var argv, logIdx, log := args, 0, LogNone;
    if hasIface && |argv| > 3 && IsLogTok(argv[3]) {
      logIdx := 3;
    } else if |argv| > 2 && IsLogTok(argv[1]) {
      logIdx := 1;
    }
    if logIdx > 0 {
      log := LogOf(argv[logIdx]);
      argv := argv[..logIdx] + argv[logIdx + 1..];
    }
    if Word("log") in argv || Word("log-all") in argv { return Err; }
    return Ok((argv, log));
  }

  method StripComment(argv: seq<Tok>) returns (r: Result<(seq<Tok>, string)>)
    ensures r == CommentPass(argv)
  {
    hide IndexTok;
    var i := FindTok(argv, "comment");
    if i < 0 { return Ok((argv, "")); }
    if i == |argv| - 1 || !argv[i + 1].Word? { return Err; }
    var comment := argv[i + 1].text;
    if '\'' in comment { return Err; }
    return Ok((argv[..i] + argv[i + 2..], comment));
  }

  method StripExpires(argv: seq<Tok>, now: int) returns (r: Result<(seq<Tok>, int)>)
    ensures r == ExpiresPass(argv, now)
  {
    hide IndexTok;
    var i := FindTok(argv, "expires");
    if i < 0 { return Ok((argv, 0)); }
    if i == |argv| - 1 || !argv[i + 1].Duration? { return Err; }
    return Ok((argv[..i] + argv[i + 2..], now + argv[i + 1].seconds));
  }

  method ParseBody(r: Rule, argv: seq<Tok>, hasIface: bool) returns (res: Result<(Rule, IPType)>)
    ensures res == BodyPass(r, argv, hasIface)
  {
    hide ClauseLoop, ProperCounts, ShortToken, Lower, SetIface, TypeOf;
    var nargs := |argv|;
    if nargs < 2 || nargs > 13 { return Err; }
    if nargs == 2 {
      var s := ShortToken(r, argv[1]);
      return if s.Err? then Err else Ok((s.value, Both));
    }
    if hasIface && nargs == 4 {
      var f := SetIface(r, LowerIs(argv[1], "in"), argv[2]);
      if f.Err? { return Err; }
      var s := ShortToken(f.value, argv[3]);
      return if s.Err? then Err else Ok((s.value, Both));
    }
    if (nargs + 1) % 2 != 0 { return Err; }
    if Word("from") !in argv && Word("to") !in argv && Word("in") !in argv && Word("out") !in argv { return Err; }
    if !ProperCounts(argv) { return Err; }
    var c := ParseClauses(r, argv);
    if c.Err? { return Err; }
    var t := TypeOf(c.value.fromType, c.value.toType);
    if t.Err? { return Err; }
    return Ok((c.value.r, t.value));
  }
}
