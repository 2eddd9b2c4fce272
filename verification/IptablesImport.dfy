/** Importing iptables-save dumps: two families with their own chain policies
    become two rule lists under one global policy. */
module IptablesImport {
  import opened Bytes
  import opened AddressSets
  import opened Outcomes
  import opened Rules
  import opened Netfilter
  import opened Matching
  import opened RuleCompiler
  import opened BuiltinChains
  import opened Compiler
  import opened Normalization
  import opened RuleMerge
  import RuleList

  // ---- dumps ----

  datatype PortSpan = PortSpan(lo: uint16, hi: uint16)

  // The matches of one decoded rule.
  datatype Criteria = Criteria(proto: Proto, src: Addr, dst: Addr, iif: Name, oif: Name,
                               sports: seq<PortSpan>, dports: seq<PortSpan>, icmpType: Option<nat>)

  datatype Spec =
    | Terminal(criteria: Criteria, action: Action, comment: string)
    | Preamble      // accept of related and established connections
    | Account       // counters only
    | ReturnAll     // unconditional return
    | Unsupported

  // The policy word of a declaration: none, a known one, or another.
  datatype ChainPolicy = Unspecified | Accepts | Drops | Rejects | BadPolicy

  // One line of a table. Rules of other tables than the filter table are
  // not decoded and stand as Unsupported.
  datatype Line = Declare(chain: string, policy: ChainPolicy) | Append(chain: string, spec: Spec)
                | InsertAt(chain: string, pos: int, spec: Spec)

  function BuiltinHook(chain: string): Option<Hook>
  {
    if chain == "INPUT" then Some(Input) else if chain == "OUTPUT" then Some(Output)
    else if chain == "FORWARD" then Some(ForwardHook) else None
  }

  function DirectionOf(h: Hook): Direction
  {
    match h
    case Input => In
    case Output => Out
    case ForwardHook => Routed
  }

  // ---- what a chain means ----

  ghost predicate PortIn(spans: seq<PortSpan>, port: Option<uint16>)
  {
    spans == [] || (port.Some? && exists i :: 0 <= i < |spans| && spans[i].lo <= port.value <= spans[i].hi)
  }

  ghost predicate CriteriaHold(c: Criteria, p: Packet)
    requires p.Valid() && c.src.Valid() && c.dst.Valid()
  {
    && (c.proto == AnyProto || ProtoNum(c.proto) == Some(p.l4))
    && c.src.Contains(p.Saddr()) && c.dst.Contains(p.Daddr())
    && (c.iif == [] || IfaceIs(c.iif, p.iif)) && (c.oif == [] || IfaceIs(c.oif, p.oif))
    && PortIn(c.sports, p.Sport()) && PortIn(c.dports, p.Dport())
    && (c.icmpType.Some? ==> HasIcmpType(p, c.icmpType.value))
  }

  // What the option parser guarantees: ports need tcp or udp, and the
  // addresses belong to the dump's family.
  ghost predicate ValidSpec(s: Spec, v6: bool)
  {
    s.Terminal? ==>
      var c := s.criteria;
      && c.src.Valid() && c.dst.Valid() && !c.src.BadAddr? && !c.dst.BadAddr?
      && Width(c.src) in {0, if v6 then 16 else 4} && Width(c.dst) in {0, if v6 then 16 else 4}
      && (c.sports != [] || c.dports != [] ==> c.proto == Tcp || c.proto == Udp)
      && c.proto != NoProto && s.action in {Allow, Deny, Reject}
  }

  // iptables: the first rule that applies, else the chain policy.
  ghost function ChainDecision(specs: seq<Spec>, v6: bool, policy: Policy, p: Packet): Decision
    requires p.Valid() && forall s :: s in specs ==> ValidSpec(s, v6)
  {
    if specs == [] then PolicyVerdict(policy)
    else
      assert ValidSpec(specs[0], v6);
      match specs[0]
      case Terminal(c, action, _) =>
        if CriteriaHold(c, p) then VerdictOf(action) else ChainDecision(specs[1..], v6, policy, p)
      case Preamble => if Tracked(p) then Accepted else ChainDecision(specs[1..], v6, policy, p)
      case ReturnAll => PolicyVerdict(policy)
      case _ => ChainDecision(specs[1..], v6, policy, p)
  }

  function VerdictOf(a: Action): Decision
  {
    match a
    case Allow => Accepted
    case Reject => Rejected
    case _ => Dropped
  }

  // ---- one rule ----

  function ToRanges(spans: seq<PortSpan>, q: Proto): (r: seq<PortRange>)
    ensures |r| == |spans|
  {
    seq(|spans|, i requires 0 <= i < |spans| => PortRange(spans[i].lo, spans[i].hi, q))
  }

  // A bare plus sign is any interface.
  function IfaceName(name: Name): Name
  {
    if name == [PLUS] then [] else name
  }

  function Decoded(c: Criteria, action: Action, comment: string, h: Hook, v6: bool): Rule
  {
    Rule("", action, DirectionOf(h), NoDirection, IfaceName(c.iif), IfaceName(c.oif), c.proto, c.icmpType,
         AddrSpec(c.src, ToRanges(c.sports, c.proto), ""), AddrSpec(c.dst, ToRanges(c.dports, c.proto), ""),
         "", "", LogNone, comment, 0, false, v6)
  }

  function Converted(c: Criteria, action: Action, comment: string, h: Hook, v6: bool): Rule
  {
    Widened(Normal(Decoded(c, action, comment, h, v6)))
  }

  lemma SpansCover(spans: seq<PortSpan>, q: Proto, port: Option<uint16>)
    requires Portful(q)
    ensures Covers(ToRanges(spans, q), q, port) <==> PortIn(spans, port)
  {
    var r := ToRanges(spans, q);
    if port.Some? && PortIn(spans, port) && spans != [] {
      var i :| 0 <= i < |spans| && spans[i].lo <= port.value <= spans[i].hi;
      assert r[i] in r && Applies(r[i], q);
    }
  }

  lemma DecodedMatches(c: Criteria, action: Action, comment: string, h: Hook, p: Packet, env: Env)
    requires p.Valid() && ValidSpec(Terminal(c, action, comment), p.v6)
    ensures Decoded(c, action, comment, h, p.v6).Valid()
    ensures Matches(Decoded(c, action, comment, h, p.v6), p, env) <==> CriteriaHold(c, p)
  {
    hide Addr.Contains, Covers, PortIn, HasIcmpType, Packet.Saddr, Packet.Daddr, Packet.Sport, Packet.Dport;
    if c.proto == Tcp || c.proto == Udp {
      SpansCover(c.sports, c.proto, p.Sport());
      SpansCover(c.dports, c.proto, p.Dport());
    } else {
      NoSpans(p.Sport());
      NoSpans(p.Dport());
    }
    AnyIface(p.iif);
    AnyIface(p.oif);
  }

  lemma NoSpans(port: Option<uint16>)
    ensures PortIn([], port)
  {
  }

  lemma AnyIface(actual: Name)
    ensures IfaceIs([PLUS], actual)
  {
  }

  // A converted rule matches the packets of its family that the iptables
  // rule matches.
  lemma ConvertedMatches(c: Criteria, action: Action, comment: string, h: Hook, p: Packet, env: Env)
    requires p.Valid() && ValidSpec(Terminal(c, action, comment), p.v6)
    ensures Converted(c, action, comment, h, p.v6).Valid()
    ensures Matches(Converted(c, action, comment, h, p.v6), p, env) <==> CriteriaHold(c, p)
  {
    hide Matches, CriteriaHold, CanonAddr, SortPorts, Widest;
    var d := Decoded(c, action, comment, h, p.v6);
    DecodedMatches(c, action, comment, h, p, env);
    NormalMatches(d, p, env);
    CanonWidth(d.src);
    CanonWidth(d.dst);
    WidenMatches(Normal(d), p, env);
  }

  lemma ConvertedKeeps(c: Criteria, action: Action, comment: string, h: Hook, v6: bool)
    ensures var r := Converted(c, action, comment, h, v6);
            r.action == action && HookOf(r.direction) == h && !r.disabled && r.expiresAt == 0
  {
    hide CanonAddr, SortPorts, Widest;
  }

  // ---- one chain ----

  // The rules of a chain: a mid-chain preamble is not representable, and
  // nothing after an unconditional return counts.
  function ConvertChain(specs: seq<Spec>, h: Hook, v6: bool, emitted: bool): Result<seq<Rule>>
  {
    if specs == [] then Ok([])
    else
      match specs[0]
      case Terminal(c, action, comment) =>
        var rest := ConvertChain(specs[1..], h, v6, true);
        if rest.Err? then Err else Ok([Converted(c, action, comment, h, v6)] + rest.value)
      case Preamble => if emitted then Err else ConvertChain(specs[1..], h, v6, emitted)
      case Account => ConvertChain(specs[1..], h, v6, emitted)
      case ReturnAll => Ok([])
      case Unsupported => Err
  }

  // A converted chain decides every packet without a tracked connection as
  // the source chain does, up to the policy.
  lemma {:induction false} ChainConverts(specs: seq<Spec>, h: Hook, emitted: bool, policy: Policy, now: int, p: Packet,
      env: Env)
    requires p.Valid() && !Tracked(p) && (forall s :: s in specs ==> ValidSpec(s, p.v6))
    requires ConvertChain(specs, h, p.v6, emitted).Ok?
    ensures forall r :: r in ConvertChain(specs, h, p.v6, emitted).value ==>
                          r.Valid() && r.action != Limit && HookOf(r.direction) == h && !r.disabled && r.expiresAt == 0
    ensures Or(FirstMatch(ConvertChain(specs, h, p.v6, emitted).value, h, now, p, env), Some(PolicyVerdict(policy)))
            == Some(ChainDecision(specs, p.v6, policy, p))
  {
    hide Matches, CriteriaHold, Converted, ValidSpec;
    if specs != [] {
      match specs[0]
      case Terminal(c, action, comment) =>
        ChainConverts(specs[1..], h, true, policy, now, p, env);
        assert specs[0] in specs;
        ConvertedMatches(c, action, comment, h, p, env);
        ConvertedKeeps(c, action, comment, h, p.v6);
        VerdictAllowed(specs[0], p.v6);
        var r, rest := Converted(c, action, comment, h, p.v6), ConvertChain(specs[1..], h, p.v6, true).value;
        assert ([r] + rest)[1..] == rest;
      case Preamble => ChainConverts(specs[1..], h, emitted, policy, now, p, env);
      case Account => ChainConverts(specs[1..], h, emitted, policy, now, p, env);
      case _ =>
    }
  }

  lemma VerdictAllowed(s: Spec, v6: bool)
    requires s.Terminal? && ValidSpec(s, v6)
    ensures s.action in {Allow, Deny, Reject}
  {
  }

  // ---- the save file ----

  // The chains of one table, the policies declared for them, and the order
  // in which chains are first mentioned.
  datatype Table = Table(chains: map<string, seq<Spec>>, policies: map<string, ChainPolicy>, order: seq<string>)

  const NO_CHAINS: Table := Table(map[], map[], [])

  function RulesAt(chains: map<string, seq<Spec>>, name: string): seq<Spec>
  {
    if name in chains then chains[name] else []
  }

  function Mentioned(t: Table, name: string): seq<string>
  {
    if name in t.chains then t.order else t.order + [name]
  }

  // iptables' own reading of a line: -A goes last, -I before a rule number.
  function LineAdded(t: Table, line: Line): Result<Table>
  {
    var rules, order := RulesAt(t.chains, line.chain), Mentioned(t, line.chain);
    match line
    case Declare(name, policy) =>
      if name in t.policies then Err else Ok(Table(t.chains[name := rules], t.policies[name := policy], order))
    case Append(name, spec) => Ok(Table(t.chains[name := rules + [spec]], t.policies, order))
    case InsertAt(name, pos, spec) =>
      if pos <= 0 || pos > |rules| + 1 then Err
      else Ok(Table(t.chains[name := rules[..pos - 1] + [spec] + rules[pos - 1..]], t.policies, order))
  }

  class SaveTable {
    var chains: map<string, seq<Spec>>
    var policies: map<string, ChainPolicy>
    var order: seq<string>

    function View(): Table
      reads this
    {
      Table(chains, policies, order)
    }

    constructor ()
      ensures View() == NO_CHAINS
    {
      chains, policies, order := map[], map[], [];
    }

    // Chains come into being with their first mention.
    method Chain(name: string)
      modifies this`chains, this`order
      ensures chains == if name in old(chains) then old(chains) else old(chains)[name := []]
      ensures order == Mentioned(old(View()), name)
    {
      if name !in chains {
        chains := chains[name := []];
        order := order + [name];
      }
    }

    // Shifts the tail up by one slot and stores the rule at pos, counted
    // from one.
    static method Place(rules: seq<Spec>, pos: nat, spec: Spec) returns (out: seq<Spec>)
      requires 1 <= pos <= |rules| + 1
      ensures out == rules[..pos - 1] + [spec] + rules[pos - 1..]
    {
      out := rules + [spec];
      var i := |rules|;
      while i >= pos
        invariant pos - 1 <= i <= |rules| && |out| == |rules| + 1
        invariant forall k :: 0 <= k < |rules| && k <= i - 1 ==> out[k] == rules[k]
        invariant forall k :: i < k <= |rules| ==> out[k] == rules[k - 1]
      {
        out := out[i := out[i - 1]];
        i := i - 1;
      }
      out := out[pos - 1 := spec];
    }

    method Store(name: string, pos: nat, spec: Spec)
      requires 1 <= pos <= |RulesAt(chains, name)| + 1
      modifies this`chains, this`order
      ensures var rules := RulesAt(old(chains), name);
              chains == old(chains)[name := rules[..pos - 1] + [spec] + rules[pos - 1..]]
      ensures order == Mentioned(old(View()), name)
    {
      Chain(name);
      var rules := Place(chains[name], pos, spec);
      chains := chains[name := rules];
      assert chains == old(chains)[name := rules];
    }

    // One line: a declaration, -A, or -I with its position.
    method AddLine(line: Line) returns (ok: bool)
      modifies this
      ensures ok <==> LineAdded(old(View()), line).Ok?
      ensures ok ==> View() == LineAdded(old(View()), line).value
    {
      var rules := RulesAt(chains, line.chain);
      match line
      case Declare(name, policy) =>
        if name in policies { return false; }
        Chain(name);
        policies := policies[name := policy];
        assert chains == old(chains)[name := rules];
        return true;
      case Append(name, spec) =>
        Store(name, |rules| + 1, spec);
        assert rules[..|rules|] + [spec] + rules[|rules|..] == rules + [spec];
        return true;
      case InsertAt(name, pos, spec) =>
        if pos <= 0 || pos > |rules| + 1 { return false; }
        Store(name, pos, spec);
        return true;
    }
  }

  // A line of the dump: a table opens, is filled and commits.
  datatype FileLine = OpenTable(name: string) | InTable(line: Line) | CommitTable | BadLine

  datatype Named = Named(name: string, table: Table)

  // The tables so far; an open one is the last.
  datatype Save = Save(tables: seq<Named>, open: bool)

  predicate HasTable(tables: seq<Named>, name: string)
  {
    exists i :: 0 <= i < |tables| && tables[i].name == name
  }

  function LineRead(s: Save, l: FileLine): Result<Save>
  {
    match l
    case OpenTable(name) =>
      if s.open || HasTable(s.tables, name) then Err else Ok(Save(s.tables + [Named(name, NO_CHAINS)], true))
    case InTable(line) =>
      if !s.open || s.tables == [] then Err
      else
        var n := |s.tables| - 1;
        var t := LineAdded(s.tables[n].table, line);
        if t.Err? then Err else Ok(Save(s.tables[..n] + [Named(s.tables[n].name, t.value)], true))
    case CommitTable => if s.open then Ok(Save(s.tables, false)) else Err
    case BadLine => Err
  }

  function LinesRead(lines: seq<FileLine>): Result<Save>
  {
    if lines == [] then Ok(Save([], false))
    else
      var init := LinesRead(lines[..|lines| - 1]);
      if init.Err? then Err else LineRead(init.value, lines[|lines| - 1])
  }

  // A dump ends outside of every table.
  function Parsed(lines: seq<FileLine>): Result<seq<Named>>
  {
    var s := LinesRead(lines);
    if s.Err? || s.value.open then Err else Ok(s.value.tables)
  }

  lemma {:induction false} ReadFails(lines: seq<FileLine>, i: nat)
    requires i < |lines| && LinesRead(lines[..i + 1]).Err?
    ensures LinesRead(lines).Err?
    decreases |lines|
  {
    hide LineRead;
    if i + 1 == |lines| {
      assert lines[..i + 1] == lines;
    } else {
      var init := lines[..|lines| - 1];
      assert init[..i + 1] == lines[..i + 1];
      ReadFails(init, i);
    }
  }

  method TableNamed(tables: seq<Named>, name: string) returns (found: bool)
    ensures found <==> HasTable(tables, name)
  {
    for i := 0 to |tables|
      invariant forall k :: 0 <= k < i ==> tables[k].name != name
    {
      if tables[i].name == name { return true; }
    }
    return false;
  }

  // iptParseSave: done are the tables that committed, cur the open one.
  method ParseSave(lines: seq<FileLine>) returns (r: Result<seq<Named>>)
    ensures r == Parsed(lines)
  {
    hide LineAdded, HasTable;
    var done: seq<Named> := [];
    var cur: SaveTable? := null;
    var name := "";
    assert lines[..0] == [];
    for i := 0 to |lines|
      invariant cur != null ==> fresh(cur)
      invariant LinesRead(lines[..i]).Ok? && LinesRead(lines[..i]).value.open == (cur != null)
      invariant LinesRead(lines[..i]).value.tables == if cur != null then done + [Named(name, cur.View())] else done
    {
      assert lines[..i + 1][..i] == lines[..i];
      ghost var s := LinesRead(lines[..i]).value;
      assert LinesRead(lines[..i + 1]) == LineRead(s, lines[i]);
      var ok := true;
      match lines[i] {
        case OpenTable(n) =>
          var dup := TableNamed(done, n);
          if cur != null || dup {
            ok := false;
          } else {
            assert s.tables == done;
            name := n;
            cur := new SaveTable();
          }
        case InTable(line) =>
          if cur == null {
            ok := false;
          } else {
            assert s.tables[..|s.tables| - 1] == done;
            ok := cur.AddLine(line);
          }
        case CommitTable =>
          if cur == null {
            ok := false;
          } else {
            done, cur := done + [Named(name, cur.View())], null;
          }
        case BadLine => ok := false;
      }
      if !ok {
        ReadFails(lines, i);
        return Err;
      }
    }
    assert lines[..|lines|] == lines;
    return if cur != null then Err else Ok(done);
  }

  // ---- what a dump may hold ----

  predicate BuiltinOf(table: string, chain: string)
  {
    if chain == "INPUT" || chain == "OUTPUT" || chain == "FORWARD" then table == "filter" || table == "mangle"
    else
      && (chain == "PREROUTING" || chain == "POSTROUTING")
      && (table == "nat" || table == "mangle" || table == "raw" || table == "security")
  }

  predicate HarmlessChain(t: Named, chain: string)
  {
    && RulesAt(t.table.chains, chain) == []
    && (BuiltinOf(t.name, chain) && chain in t.table.policies ==>
          t.table.policies[chain].Unspecified? || t.table.policies[chain].Accepts?)
  }

  // A table other than the filter table may only be empty and accepting.
  predicate HarmlessTable(t: Named)
  {
    forall i :: 0 <= i < |t.table.order| ==> HarmlessChain(t, t.table.order[i])
  }

  predicate OthersHarmless(tables: seq<Named>)
  {
    forall i :: 0 <= i < |tables| && tables[i].name != "filter" ==> HarmlessTable(tables[i])
  }

  function FilterOf(tables: seq<Named>): Table
  {
    if tables == [] then NO_CHAINS
    else if tables[|tables| - 1].name == "filter" then tables[|tables| - 1].table
    else FilterOf(tables[..|tables| - 1])
  }

  function Stated(policy: ChainPolicy): Option<Policy>
  {
    match policy
    case Accepts => Some(AllowPolicy)
    case Drops => Some(DenyPolicy)
    case Rejects => Some(RejectPolicy)
    case _ => None
  }

  function DeclaredFor(t: Table, chain: string): ChainPolicy
  {
    if chain in t.policies then t.policies[chain] else Unspecified
  }

  // The policies the built-in chains state.
  function StatedPolicies(t: Table, order: seq<string>): map<string, Policy>
  {
    if order == [] then map[]
    else
      var init, n := StatedPolicies(t, order[..|order| - 1]), order[|order| - 1];
      if BuiltinHook(n).Some?
          && Stated(DeclaredFor(t, n)).Some? then init[n := Stated(DeclaredFor(t, n)).value] else init
  }

  predicate PoliciesKnown(t: Table)
  {
    forall i :: 0 <= i < |t.order| && BuiltinHook(t.order[i]).Some? ==> !DeclaredFor(t, t.order[i]).BadPolicy?
  }

  // One provided dump: its chains, their order of declaration, and the
  // policies the dump states.
  datatype Dump = Dump(chains: map<string, seq<Spec>>, order: seq<string>, policies: map<string, Policy>)

  function DumpOf(t: Table): Dump { Dump(t.chains, t.order, StatedPolicies(t, t.order)) }

  // What a stream of lines amounts to.
  function Stream(lines: seq<FileLine>, v6: bool): Result<Dump>
  {
    var tables := Parsed(lines);
    if tables.Err? || !OthersHarmless(tables.value) then Err
    else
      var t := FilterOf(tables.value);
      if !PoliciesKnown(t) || StreamRules(t.chains, t.order, v6).Err? then Err else Ok(DumpOf(t))
  }

  // ---- one stream ----

  // The rules of all builtin chains, in declaration order.
  function StreamRules(chains: map<string, seq<Spec>>, order: seq<string>, v6: bool): Result<seq<Rule>>
  {
    if order == [] then Ok([])
    else
      var n := |order| - 1;
      var init := StreamRules(chains, order[..n], v6);
      if init.Err? then Err
      else if BuiltinHook(order[n]).None? then init
      else
        var c := ConvertChain(RulesAt(chains, order[n]), BuiltinHook(order[n]).value, v6, false);
        if c.Err? then Err else Ok(init.value + c.value)
  }

  // The chain loop of the stream import: policies and rules together.
  method ImportChains(t: Table, v6: bool) returns (r: Result<(seq<Rule>, map<string, Policy>)>)
    ensures r.Ok? <==> PoliciesKnown(t) && StreamRules(t.chains, t.order, v6).Ok?
    ensures r.Ok? ==> r.value == (StreamRules(t.chains, t.order, v6).value, StatedPolicies(t, t.order))
  {
    hide ConvertChain;
    var rules: seq<Rule> := [];
    var policies: map<string, Policy> := map[];
    assert t.order[..0] == [];
    for i := 0 to |t.order|
      invariant StreamRules(t.chains, t.order[..i], v6) == Ok(rules) && policies == StatedPolicies(t, t.order[..i])
      invariant forall k :: 0 <= k < i && BuiltinHook(t.order[k]).Some? ==> !DeclaredFor(t, t.order[k]).BadPolicy?
    {
      assert t.order[..i + 1][..i] == t.order[..i];
      var n := t.order[i];
      var h := BuiltinHook(n);
      if h.None? { continue; }
      match DeclaredFor(t, n) {
        case Unspecified =>
        case Accepts => policies := policies[n := AllowPolicy];
        case Drops => policies := policies[n := DenyPolicy];
        case Rejects => policies := policies[n := RejectPolicy];
        case BadPolicy => return Err;
      }
      var c := ImportChain(RulesAt(t.chains, n), h.value, v6);
      if c.Err? {
        StreamFails(t.chains, t.order, i, v6);
        return Err;
      }
      rules := rules + c.value;
    }
    assert t.order[..|t.order|] == t.order;
    return Ok((rules, policies));
  }

  method CheckTable(t: Named) returns (bad: bool)
    ensures bad <==> !HarmlessTable(t)
  {
    for i := 0 to |t.table.order|
      invariant forall k :: 0 <= k < i ==> HarmlessChain(t, t.table.order[k])
    {
      if !HarmlessChain(t, t.table.order[i]) { return true; }
    }
    return false;
  }

  // iptImportStream: every table is looked at, then the filter table.
  method ImportStream(lines: seq<FileLine>, v6: bool) returns (r: Result<(Dump, seq<Rule>)>)
    ensures r.Ok? <==> Stream(lines, v6).Ok?
    ensures r.Ok? ==>
            r.value.0 == Stream(lines, v6).value && Ok(r.value.1) == StreamRules(r.value.0.chains, r.value.0.order, v6)
  {
    hide StreamRules, StatedPolicies, HarmlessTable, PoliciesKnown;
    var parsed := ParseSave(lines);
    if parsed.Err? { return Err; }
    var tables := parsed.value;
    var filter := NO_CHAINS;
    assert tables[..0] == [];
    for i := 0 to |tables|
      invariant filter == FilterOf(tables[..i])
      invariant forall k :: 0 <= k < i && tables[k].name != "filter" ==> HarmlessTable(tables[k])
    {
      assert tables[..i + 1][..i] == tables[..i];
      if tables[i].name == "filter" {
        filter := tables[i].table;
        continue;
      }
      var bad := CheckTable(tables[i]);
      if bad { return Err; }
    }
    assert tables[..|tables|] == tables;
    var c := ImportChains(filter, v6);
    if c.Err? { return Err; }
    return Ok((Dump(filter.chains, filter.order, c.value.1), c.value.0));
  }

  method ImportChain(specs: seq<Spec>, h: Hook, v6: bool) returns (r: Result<seq<Rule>>)
    ensures r == ConvertChain(specs, h, v6, false)
  {
    hide Converted;
    var rules: seq<Rule> := [];
    var emitted, failed := 0, false;
    var i := 0;
    assert specs[0..] == specs;
    ghost var all := ConvertChain(specs, h, v6, false);
    assert all.Ok? ==> rules + all.value == all.value;
    while i < |specs|
      invariant 0 <= i <= |specs| && emitted == |rules|
      invariant ConvertChain(specs, h, v6, false) ==
                (if failed then Err
                 else
                   var rest := ConvertChain(specs[i..], h, v6, emitted > 0);
                   if rest.Err? then Err else Ok(rules + rest.value))
    {
      assert specs[i..][0] == specs[i] && specs[i..][1..] == specs[i + 1..];
      match specs[i] {
        case Terminal(c, action, comment) =>
          ghost var before := rules;
          rules := rules + [Converted(c, action, comment, h, v6)];
          emitted := emitted + 1;
          var rest := ConvertChain(specs[i + 1..], h, v6, true);
          if rest.Ok? { assert before + ([Converted(c, action, comment, h, v6)] + rest.value) == rules + rest.value; }
        case Preamble => if emitted > 0 { failed := true; }
        case Account =>
        case ReturnAll => break;
        case Unsupported => failed := true;
      }
      i := i + 1;
    }
    assert rules + [] == rules;
    return if failed then Err else Ok(rules);
  }

  lemma {:induction false} StreamFails(chains: map<string, seq<Spec>>, order: seq<string>, i: nat, v6: bool)
    requires i < |order| && BuiltinHook(order[i]).Some?
    requires ConvertChain(RulesAt(chains, order[i]), BuiltinHook(order[i]).value, v6, false).Err?
    ensures StreamRules(chains, order, v6).Err?
    decreases |order|
  {
    if i < |order| - 1 {
      assert order[..|order| - 1][i] == order[i];
      StreamFails(chains, order[..|order| - 1], i, v6);
    }
  }

  ghost predicate ValidChains(chains: map<string, seq<Spec>>, v6: bool)
  {
    forall n, s :: n in chains && s in chains[n] ==> ValidSpec(s, v6)
  }

  predicate OnceEach(order: seq<string>)
  {
    forall i, j :: 0 <= i < j < |order| ==> order[i] != order[j]
  }

  function ChainName(h: Hook): string
  {
    match h
    case Input => "INPUT"
    case Output => "OUTPUT"
    case ForwardHook => "FORWARD"
  }

  lemma HookNames(n: string, h: Hook)
    ensures BuiltinHook(n) == Some(h) <==> n == ChainName(h)
  {
  }

  // Rules of other hooks never decide.
  lemma {:induction false} OtherHook(rules: seq<Rule>, h: Hook, now: int, p: Packet, env: Env)
    requires p.Valid() && forall r :: r in rules ==> r.Valid() && HookOf(r.direction) != h
    ensures FirstMatch(rules, h, now, p, env) == None
  {
    hide Matches;
    if rules != [] { OtherHook(rules[1..], h, now, p, env); }
  }

  // The stream's rules decide at each hook as its own chain does.
  lemma {:induction false} StreamDecides(chains: map<string, seq<Spec>>, order: seq<string>, h: Hook, policy: Policy,
      now: int,
                                         p: Packet, env: Env)
    requires p.Valid() && !Tracked(p) && ValidChains(chains, p.v6) && OnceEach(order)
             && StreamRules(chains, order, p.v6).Ok?
    ensures forall r :: r in StreamRules(chains, order, p.v6).value ==> r.Valid() && r.action != Limit
    ensures var d := FirstMatch(StreamRules(chains, order, p.v6).value, h, now, p, env);
            if ChainName(h) in order
            then Or(d, Some(PolicyVerdict(policy))) == Some(SourceDecision(chains, h, p.v6, policy, p))
            else d == None
  {
    hide FirstMatch, ConvertChain, ChainDecision, ValidSpec;
    if order == [] {
      OtherHook([], h, now, p, env);
    } else {
      var n := |order| - 1;
      StreamDecides(chains, order[..n], h, policy, now, p, env);
      HookNames(order[n], h);
      if BuiltinHook(order[n]).Some? {
        var g, specs := BuiltinHook(order[n]).value, RulesAt(chains, order[n]);
        ChainConverts(specs, g, false, policy, now, p, env);
        var c := ConvertChain(specs, g, p.v6, false).value;
        if g != h { OtherHook(c, h, now, p, env); }
        FirstMatchAppend(StreamRules(chains, order[..n], p.v6).value, c, h, now, p, env);
      }
    }
  }

  ghost function SourceDecision(chains: map<string, seq<Spec>>, h: Hook, v6: bool, policy: Policy, p: Packet): Decision
    requires p.Valid() && ValidChains(chains, v6)
  {
    ChainDecision(RulesAt(chains, ChainName(h)), v6, policy, p)
  }

  // ---- policies ----

  function Rank(pol: Policy): nat
  {
    match pol
    case DenyPolicy => 3
    case RejectPolicy => 2
    case _ => 1
  }

  function EffPol(pol: Policy): Policy
  {
    if pol.OtherPolicy? then DenyPolicy else pol
  }

  // The stricter of the effective family policies.
  function BaseOf(eff4: Policy, eff6: Option<Policy>): Policy
  {
    if eff6.Some? && Rank(eff6.value) > Rank(eff4) then eff6.value else eff4
  }

  function ActionOf(pol: Policy): Action
  {
    match pol
    case AllowPolicy => Allow
    case RejectPolicy => Reject
    case _ => Deny
  }

  function Catchall(h: Hook, pol: Policy, v6: bool, id: string): Rule
  {
    Rule(id, ActionOf(pol), DirectionOf(h), NoDirection, [], [], AnyProto, None, AddrSpec(AnyAddr, [], ""),
        AddrSpec(AnyAddr, [], ""),
         "", "", LogNone, "iptables-persistent " + ChainName(h) + " chain policy " + PolicyWord(pol), 0, false, v6)
  }

  function PolicyWord(pol: Policy): string
  {
    match pol
    case AllowPolicy => "allow"
    case DenyPolicy => "deny"
    case RejectPolicy => "reject"
    case OtherPolicy(w) => w
  }

  // The last rule of the direction.
  function LastOf(rules: seq<Rule>, d: Direction): Option<Rule>
  {
    if rules == [] then None
    else if rules[|rules| - 1].direction == d then Some(rules[|rules| - 1])
    else LastOf(rules[..|rules| - 1], d)
  }

  function WithCatchall(rules: seq<Rule>, h: Hook, pol: Policy, v6: bool, id: string): seq<Rule>
  {
    var last := LastOf(rules, DirectionOf(h));
    if last.Some? && Match(last.value, Catchall(h, pol, v6, "")) == MatchExact then rules
    else rules + [Catchall(h, pol, v6, id)]
  }

  // Appends a rule with the family's own policy, unless the last rule of
  // the direction is that rule already.
  method AppendPolicyCatchall(rules: seq<Rule>, v6: bool, h: Hook, pol: Policy, id: string)
      returns (out: seq<Rule>, added: bool)
    ensures out == WithCatchall(rules, h, pol, v6, id) && (added <==> out != rules)
  {
    hide Match;
    var nr := Catchall(h, pol, v6, "");
    var i := |rules| - 1;
    assert rules[..|rules|] == rules;
    while i >= 0
      invariant -1 <= i < |rules| && LastOf(rules[..i + 1], DirectionOf(h)) == LastOf(rules, DirectionOf(h))
    {
      assert rules[..i + 1][..i] == rules[..i];
      if rules[i].direction != DirectionOf(h) {
        i := i - 1;
        continue;
      }
      if Match(rules[i], nr) == MatchExact { return rules, false; }
      break;
    }
    return rules + [nr.(id := id)], true;
  }

  lemma {:induction false} LastSplits(rules: seq<Rule>, d: Direction) returns (k: nat)
    requires LastOf(rules, d).Some?
    ensures k < |rules| && rules[k] == LastOf(rules, d).value && rules[k].direction == d
    ensures forall i :: k < i < |rules| ==> rules[i].direction != d
  {
    var n := |rules| - 1;
    if rules[n].direction == d { k := n; } else { k := LastSplits(rules[..n], d); }
  }

  lemma CatchallHolds(h: Hook, pol: Policy, id: string, p: Packet, env: Env)
    requires p.Valid()
    ensures Catchall(h, pol, p.v6, id).Valid() && Matches(Catchall(h, pol, p.v6, id), p, env)
    ensures ActionDecision(Catchall(h, pol, p.v6, id), p, env) == PolicyVerdict(pol)
    ensures HookOf(Catchall(h, pol, p.v6, id).direction) == h
  {
  }

  // At the hook of the catchall every packet gets a decision: the first
  // match of before, else the family's policy.
  lemma CatchallDecides(rules: seq<Rule>, h: Hook, pol: Policy, id: string, now: int, p: Packet, env: Env)
    requires p.Valid() && (forall r :: r in rules ==> r.Valid() && r.Active(now) && r.direction != NoDirection)
    ensures forall r :: r in WithCatchall(rules, h, pol, p.v6, id) ==> r.Valid()
    ensures FirstMatch(WithCatchall(rules, h, pol, p.v6, id), h, now, p, env)
            == Or(FirstMatch(rules, h, now, p, env), Some(PolicyVerdict(pol)))
  {
    hide Matches, FirstMatch, ActionDecision, Match, Catchall;
    CatchallHolds(h, pol, id, p, env);
    CatchallHolds(h, pol, "", p, env);
    var c := Catchall(h, pol, p.v6, id);
    CatchallActive(h, pol, p.v6, id, now);
    OneRule(c, h, now, p, env);
    var last := LastOf(rules, DirectionOf(h));
    if last.Some? && Match(last.value, Catchall(h, pol, p.v6, "")) == MatchExact {
      var k := LastSplits(rules, DirectionOf(h));
      var pre, post := rules[..k], rules[k + 1..];
      assert rules == pre + ([rules[k]] + post);
      FirstMatchAppend(pre, [rules[k]] + post, h, now, p, env);
      FirstMatchAppend([rules[k]], post, h, now, p, env);
      SameAsCatchall(rules[k], h, pol, p, env);
      OneRule(rules[k], h, now, p, env);
    } else {
      FirstMatchAppend(rules, [c], h, now, p, env);
    }
  }

  lemma CatchallActive(h: Hook, pol: Policy, v6: bool, id: string, now: int)
    ensures Catchall(h, pol, v6, id).Active(now)
  {
  }

  lemma OneRule(r: Rule, h: Hook, now: int, p: Packet, env: Env)
    requires p.Valid() && r.Valid()
    ensures FirstMatch([r], h, now, p, env) ==
            if r.Active(now) && HookOf(r.direction) == h
                && Matches(r, p, env) then Some(ActionDecision(r, p, env)) else None
  {
    assert [r][1..] == [];
  }

  // A rule of the same identity and action as the catchall matches all.
  lemma SameAsCatchall(r: Rule, h: Hook, pol: Policy, p: Packet, env: Env)
    requires p.Valid() && r.Valid() && Match(r, Catchall(h, pol, p.v6, "")) == MatchExact
             && r.direction == DirectionOf(h)
    ensures Matches(r, p, env) && ActionDecision(r, p, env) == PolicyVerdict(pol) && HookOf(r.direction) == h
  {
  }

  // ---- the whole import ----

  // The policy a family has at a hook: its own where stated, else what the
  // state said before.
  function FamilyPolicy(dump: Option<Dump>, h: Hook, stored: Policy): Policy
  {
    if dump.Some? && ChainName(h) in dump.value.policies then dump.value.policies[ChainName(h)] else EffPol(stored)
  }

  // What the import leaves of a family list for one hook.
  function FamilyRules(rules: seq<Rule>, h: Hook, eff: Policy, base: Policy, v6: bool, id: string): seq<Rule>
  {
    if eff != base then WithCatchall(rules, h, eff, v6, id) else rules
  }

  // The merge of one hook's policies: the stricter one is global, and the
  // laxer family ends in a catchall.
  method MergePolicy(rules4: seq<Rule>, rules6: seq<Rule>, h: Hook, stored: Policy, dump4: Option<Dump>,
      dump6: Option<Dump>,
                     ipv6: bool, id4: string, id6: string)
    returns (out4: seq<Rule>, out6: seq<Rule>, base: Policy)
    ensures var eff4, eff6 := FamilyPolicy(dump4, h, stored), FamilyPolicy(dump6, h, stored);
            && base == BaseOf(eff4, if ipv6 then Some(eff6) else None)
            && out4 == FamilyRules(rules4, h, eff4, base, false, id4)
            && out6 == if ipv6 then FamilyRules(rules6, h, eff6, base, true, id6) else rules6
  {
    var eff4 := EffPol(stored);
    if dump4.Some? && ChainName(h) in dump4.value.policies { eff4 := dump4.value.policies[ChainName(h)]; }
    var eff6: Option<Policy> := None;
    if ipv6 {
      eff6 := Some(EffPol(stored));
      if dump6.Some? && ChainName(h) in dump6.value.policies { eff6 := Some(dump6.value.policies[ChainName(h)]); }
    }
    base := eff4;
    if eff6.Some? && Rank(eff6.value) > Rank(base) { base := eff6.value; }
    out4, out6 := rules4, rules6;
    var added;
    if eff4 != base { out4, added := AppendPolicyCatchall(out4, false, h, eff4, id4); }
    if eff6.Some? && eff6.value != base { out6, added := AppendPolicyCatchall(out6, true, h, eff6.value, id6); }
  }

  // All three hooks, one after the other.
  datatype Policied = Policied(rules4: seq<Rule>, rules6: seq<Rule>, policies: Policies)

  method MergePolicies(rules4: seq<Rule>, rules6: seq<Rule>, stored: Policies, dump4: Option<Dump>, dump6: Option<Dump>,
                       ipv6: bool, id: string) returns (out: Policied)
    ensures out.policies ==
            Policies(BaseAt(stored, dump4, dump6, ipv6, Input), BaseAt(stored, dump4, dump6, ipv6, Output),
                                     BaseAt(stored, dump4, dump6, ipv6, ForwardHook))
    ensures out.rules4 == AllHooks(rules4, stored, dump4, dump6, ipv6, false, id)
    ensures out.rules6 == if ipv6 then AllHooks(rules6, stored, dump4, dump6, ipv6, true, id) else rules6
  {
    var in4, in6, basein := MergePolicy(rules4, rules6, Input, stored.input, dump4, dump6, ipv6, id, id);
    var out4, out6, baseout := MergePolicy(in4, in6, Output, stored.output, dump4, dump6, ipv6, id, id);
    var fwd4, fwd6, basefwd := MergePolicy(out4, out6, ForwardHook, stored.forward, dump4, dump6, ipv6, id, id);
    return Policied(fwd4, fwd6, Policies(basein, baseout, basefwd));
  }

  function BaseAt(stored: Policies, dump4: Option<Dump>, dump6: Option<Dump>, ipv6: bool, h: Hook): Policy
  {
    BaseOf(FamilyPolicy(dump4, h, stored.Get(h)), if ipv6 then Some(FamilyPolicy(dump6, h, stored.Get(h))) else None)
  }

  function AtHook(rules: seq<Rule>, stored: Policies, dump4: Option<Dump>, dump6: Option<Dump>, ipv6: bool, v6: bool,
      id: string, h: Hook)
    : seq<Rule>
  {
    FamilyRules(rules, h, FamilyPolicy(if v6 then dump6 else dump4, h, stored.Get(h)),
        BaseAt(stored, dump4, dump6, ipv6, h), v6, id)
  }

  function AllHooks(rules: seq<Rule>, stored: Policies, dump4: Option<Dump>, dump6: Option<Dump>, ipv6: bool, v6: bool,
      id: string)
    : seq<Rule>
  {
    AtHook(AtHook(AtHook(rules, stored, dump4, dump6, ipv6, v6, id, Input), stored, dump4, dump6, ipv6, v6, id, Output),
           stored, dump4, dump6, ipv6, v6, id, ForwardHook)
  }

  ghost predicate Plain(rules: seq<Rule>, now: int)
  {
    forall r :: r in rules ==> r.Valid() && r.Active(now) && r.direction != NoDirection
  }

  // One hook's merge settles that hook and leaves the others.
  lemma AtHookDecides(rules: seq<Rule>, stored: Policies, dump4: Option<Dump>, dump6: Option<Dump>, ipv6: bool,
      id: string, g: Hook,
                      h: Hook, now: int, p: Packet, env: Env)
    requires p.Valid() && Plain(rules, now)
    ensures var r := AtHook(rules, stored, dump4, dump6, ipv6, p.v6, id, g);
            && Plain(r, now)
            && FirstMatch(r, h, now, p, env) ==
               var eff := FamilyPolicy(if p.v6 then dump6 else dump4, g, stored.Get(g));
               if g == h && eff != BaseAt(stored, dump4, dump6, ipv6, g)
               then Or(FirstMatch(rules, h, now, p, env), Some(PolicyVerdict(eff)))
               else FirstMatch(rules, h, now, p, env)
  {
    hide FirstMatch, BaseAt, FamilyPolicy, Match, Rule.Valid, Rule.Active, Catchall, LastOf, PolicyVerdict;
    var eff := FamilyPolicy(if p.v6 then dump6 else dump4, g, stored.Get(g));
    if eff != BaseAt(stored, dump4, dump6, ipv6, g) {
      var c := Catchall(g, eff, p.v6, id);
      CatchallHolds(g, eff, id, p, env);
      CatchallActive(g, eff, p.v6, id, now);
      CatchallDirected(g, eff, p.v6, id);
      if g == h {
        CatchallDecides(rules, h, eff, id, now, p, env);
      } else {
        OtherHook([c], h, now, p, env);
        FirstMatchAppend(rules, [c], h, now, p, env);
      }
    }
  }

  lemma CatchallDirected(h: Hook, pol: Policy, v6: bool, id: string)
    ensures Catchall(h, pol, v6, id).direction != NoDirection
  {
  }

  // After the merge, first match and then the global policy give what
  // first match and then the family's own policy gave.
  lemma {:induction false} PolicyKept(rules: seq<Rule>, stored: Policies, dump4: Option<Dump>, dump6: Option<Dump>,
      ipv6: bool, id: string, h: Hook, now: int, p: Packet, env: Env)
    requires p.Valid() && Plain(rules, now)
    ensures var r := AllHooks(rules, stored, dump4, dump6, ipv6, p.v6, id);
            && Plain(r, now)
            && Or(FirstMatch(r, h, now, p, env), Some(PolicyVerdict(BaseAt(stored, dump4, dump6, ipv6, h))))
               == Or(FirstMatch(rules, h, now, p, env),
                     Some(PolicyVerdict(FamilyPolicy(if p.v6 then dump6 else dump4, h, stored.Get(h)))))
  {
    hide FirstMatch, BaseAt, FamilyPolicy, AtHook, Plain, PolicyVerdict;
    var r1 := AtHook(rules, stored, dump4, dump6, ipv6, p.v6, id, Input);
    var r2 := AtHook(r1, stored, dump4, dump6, ipv6, p.v6, id, Output);
    AtHookDecides(rules, stored, dump4, dump6, ipv6, id, Input, h, now, p, env);
    AtHookDecides(r1, stored, dump4, dump6, ipv6, id, Output, h, now, p, env);
    AtHookDecides(r2, stored, dump4, dump6, ipv6, id, ForwardHook, h, now, p, env);
    match h
    case Input =>
    case Output =>
    case ForwardHook =>
  }

  ghost predicate ValidDump(d: Dump, v6: bool)
  {
    && ValidChains(d.chains, v6) && OnceEach(d.order) && (forall n :: n in d.chains <==> n in d.order)
    && (forall n :: n in d.policies ==> n in d.order) && StreamRules(d.chains, d.order, v6).Ok?
    && RuleList.Distinct(StreamRules(d.chains, d.order, v6).value)
  }

  // The family list with the rules of a provided dump merged in.
  function MergedInto(rules: seq<Rule>, dump: Option<Dump>, v6: bool, newID: nat -> string): seq<Rule>
    requires dump.Some? ==> StreamRules(dump.value.chains, dump.value.order, v6).Ok?
  {
    if dump.None? then rules else Merge(rules, StreamRules(dump.value.chains, dump.value.order, v6).value, newID)
  }

  function MergedFamily(dump: Option<Dump>, v6: bool, newID: nat -> string): seq<Rule>
    requires dump.Some? ==> StreamRules(dump.value.chains, dump.value.order, v6).Ok?
  {
    MergedInto([], dump, v6, newID)
  }

  // What the family did before the import: its own chain where the dump
  // has one, else the stored policy.
  ghost function FamilySource(dump: Option<Dump>, h: Hook, stored: Policy, p: Packet): Decision
    requires p.Valid() && (dump.Some? ==> ValidChains(dump.value.chains, p.v6))
  {
    var policy := FamilyPolicy(dump, h, stored);
    if dump.Some? && ChainName(h) in dump.value.order then SourceDecision(dump.value.chains, h, p.v6, policy, p)
    else PolicyVerdict(policy)
  }

  lemma {:induction false} StreamPlain(chains: map<string, seq<Spec>>, order: seq<string>, now: int, p: Packet,
      env: Env)
    requires p.Valid() && !Tracked(p) && ValidChains(chains, p.v6) && StreamRules(chains, order, p.v6).Ok?
    ensures Plain(StreamRules(chains, order, p.v6).value, now)
  {
    hide ConvertChain, ValidSpec, FirstMatch, ChainDecision;
    if order != [] {
      var n := |order| - 1;
      StreamPlain(chains, order[..n], now, p, env);
      if BuiltinHook(order[n]).Some? {
        var g, specs := BuiltinHook(order[n]).value, RulesAt(chains, order[n]);
        ChainConverts(specs, g, false, DenyPolicy, now, p, env);
        ConvertedDirected(specs, g, p.v6, false);
      }
    }
  }

  lemma {:induction false} ConvertedDirected(specs: seq<Spec>, h: Hook, v6: bool, emitted: bool)
    requires ConvertChain(specs, h, v6, emitted).Ok?
    ensures forall r :: r in ConvertChain(specs, h, v6, emitted).value ==> r.direction != NoDirection
  {
    hide CanonAddr, SortPorts, Widest;
    if specs != [] {
      match specs[0]
      case Terminal(_, _, _) => ConvertedDirected(specs[1..], h, v6, true);
      case Preamble => ConvertedDirected(specs[1..], h, v6, emitted);
      case Account => ConvertedDirected(specs[1..], h, v6, emitted);
      case _ =>
    }
  }

  lemma PlainIds(a: seq<Rule>, b: seq<Rule>, now: int)
    requires SameButIds(a, b) && Plain(b, now)
    ensures Plain(a, now)
  {
    forall r | r in a ensures r.Valid() && r.Active(now) && r.direction != NoDirection {
      var i :| 0 <= i < |a| && a[i] == r;
      assert SameButId(a[i], b[i]) && b[i] in b;
    }
  }

  // For valid dumps, hooks and packets of no tracked connection, first match
  // and then the global policy is what the source chain, or the prior
  // policy, decides.
  lemma {:induction false} DumpsKeepDecisions(stored: Policies, dump4: Option<Dump>, dump6: Option<Dump>, ipv6: bool,
      id: string, newID: nat -> string, h: Hook, now: int, p: Packet, env: Env)
    requires p.Valid() && !Tracked(p)
    requires (dump4.Some? ==> ValidDump(dump4.value, false)) && (dump6.Some? ==> ValidDump(dump6.value, true))
    ensures var dump := if p.v6 then dump6 else dump4;
            var r := AllHooks(MergedFamily(dump, p.v6, newID), stored, dump4, dump6, ipv6, p.v6, id);
            && (forall x :: x in r ==> x.Valid())
            && Or(FirstMatch(r, h, now, p, env), Some(PolicyVerdict(BaseAt(stored, dump4, dump6, ipv6, h))))
               == Some(FamilySource(dump, h, stored.Get(h), p))
  {
    hide FirstMatch, BaseAt, AllHooks, SourceDecision, StreamRules, RuleList.Distinct, FamilyPolicy, Merge, OnceEach,
         ValidChains, PolicyVerdict;
    var dump := if p.v6 then dump6 else dump4;
    var rules := MergedFamily(dump, p.v6, newID);
    var policy := FamilyPolicy(dump, h, stored.Get(h));
    if dump.Some? {
      var d := dump.value;
      var src := StreamRules(d.chains, d.order, p.v6).value;
      StreamDecides(d.chains, d.order, h, policy, now, p, env);
      StreamPlain(d.chains, d.order, now, p, env);
      MergeIntoEmpty(src, newID);
      PlainIds(rules, src, now);
      IdsDoNotDecide(rules, src, h, now, p, env);
    } else {
      OtherHook([], h, now, p, env);
    }
    PolicyKept(rules, stored, dump4, dump6, ipv6, id, h, now, p, env);
  }

  // ---- from the lines of the dumps ----

  // What the option parser guarantees of every line.
  ghost predicate ValidFile(lines: seq<FileLine>, v6: bool)
  {
    forall i :: 0 <= i < |lines| && lines[i].InTable? && !lines[i].line.Declare? ==> ValidSpec(lines[i].line.spec, v6)
  }

  ghost predicate ValidTable(t: Table, v6: bool)
  {
    ValidChains(t.chains, v6) && Ordered(t)
  }

  // The order lists every chain once.
  ghost predicate Ordered(t: Table)
  {
    && OnceEach(t.order) && (forall n :: n in t.chains <==> n in t.order)
    && forall n :: n in t.policies ==> n in t.order
  }

  ghost predicate ValidTables(tables: seq<Named>, v6: bool)
  {
    forall i :: 0 <= i < |tables| ==> ValidTable(tables[i].table, v6)
  }

  lemma LineKeepsTable(t: Table, line: Line, v6: bool)
    requires ValidTable(t, v6) && LineAdded(t, line).Ok? && (!line.Declare? ==> ValidSpec(line.spec, v6))
    ensures ValidTable(LineAdded(t, line).value, v6)
  {
    hide ValidSpec, LineAdded, OnceEach;
    LineKeepsOrder(t, line);
    var u := LineAdded(t, line).value;
    forall m, s | m in u.chains && s in u.chains[m] ensures ValidSpec(s, v6) {
      SpecsOf(t, line, m, s);
    }
  }

  lemma LineKeepsOrder(t: Table, line: Line)
    requires Ordered(t) && LineAdded(t, line).Ok?
    ensures Ordered(LineAdded(t, line).value)
  {
    var u, n := LineAdded(t, line).value, line.chain;
    assert u.order == Mentioned(t, n) && u.chains.Keys == t.chains.Keys + {n};
    assert forall m :: m in u.order <==> m in t.order || m == n by { MentionedOrder(t, n); }
    assert forall m :: m in u.chains <==> m in t.chains || m == n;
    assert forall m :: m in u.policies ==> m in t.policies || m == n;
  }

  lemma MentionedOrder(t: Table, n: string)
    requires n in t.chains <==> n in t.order
    ensures forall m :: m in Mentioned(t, n) <==> m in t.order || m == n
  {
  }

  // A line adds its own rule to a chain and no other.
  lemma SpecsOf(t: Table, line: Line, m: string, s: Spec)
    requires LineAdded(t, line).Ok? && m in LineAdded(t, line).value.chains && s in LineAdded(t, line).value.chains[m]
    ensures (!line.Declare? && s == line.spec) || (m in t.chains && s in t.chains[m])
  {
  }

  lemma {:induction false} ReadKeepsTables(lines: seq<FileLine>, v6: bool)
    requires ValidFile(lines, v6) && LinesRead(lines).Ok?
    ensures ValidTables(LinesRead(lines).value.tables, v6)
  {
    hide ValidTable, LineAdded, ValidSpec, HasTable;
    if lines != [] {
      var n := |lines| - 1;
      ReadKeepsTables(lines[..n], v6);
      var s := LinesRead(lines[..n]).value;
      match lines[n]
      case OpenTable(_) => NothingValid(v6);
      case InTable(line) => LineKeepsTable(s.tables[|s.tables| - 1].table, line, v6);
      case _ =>
    }
  }

  lemma NothingValid(v6: bool)
    ensures ValidTable(NO_CHAINS, v6)
  {
  }

  lemma {:induction false} FilterValid(tables: seq<Named>, v6: bool)
    requires ValidTables(tables, v6)
    ensures ValidTable(FilterOf(tables), v6)
  {
    hide ValidTable;
    NothingValid(v6);
    if tables != [] { FilterValid(tables[..|tables| - 1], v6); }
  }

  lemma {:induction false} StatedInOrder(t: Table, order: seq<string>)
    ensures forall n :: n in StatedPolicies(t, order) ==> n in order
  {
    if order != [] { StatedInOrder(t, order[..|order| - 1]); }
  }

  // The rules a stream gives have pairwise distinct identities.
  ghost predicate DistinctRules(lines: seq<FileLine>, v6: bool)
    requires Stream(lines, v6).Ok?
  {
    RuleList.Distinct(StreamRules(Stream(lines, v6).value.chains, Stream(lines, v6).value.order, v6).value)
  }

  lemma StreamValid(lines: seq<FileLine>, v6: bool)
    requires ValidFile(lines, v6) && Stream(lines, v6).Ok? && DistinctRules(lines, v6)
    ensures ValidDump(Stream(lines, v6).value, v6)
  {
    hide LinesRead, StreamRules, StatedPolicies, OthersHarmless, PoliciesKnown, RuleList.Distinct;
    var tables := Parsed(lines).value;
    ReadKeepsTables(lines, v6);
    FilterValid(tables, v6);
    StatedInOrder(FilterOf(tables), FilterOf(tables).order);
  }

  ghost predicate Importable(lines: Option<seq<FileLine>>, v6: bool)
  {
    lines.Some? ==> ValidFile(lines.value, v6) && Stream(lines.value, v6).Ok? && DistinctRules(lines.value, v6)
  }

  function DumpFrom(lines: Option<seq<FileLine>>, v6: bool): Option<Dump>
    requires lines.Some? ==> Stream(lines.value, v6).Ok?
  {
    if lines.None? then None else Some(Stream(lines.value, v6).value)
  }

  // From the lines: -A and -I applied in order, each hook decides as its
  // chain with its declared policy, or as before where nothing is declared.
  lemma {:induction false} ImportKeepsDecisions(stored: Policies, lines4: Option<seq<FileLine>>,
      lines6: Option<seq<FileLine>>, ipv6: bool, id: string, newID: nat -> string, h: Hook, now: int, p: Packet,
      env: Env)
    requires p.Valid() && !Tracked(p) && Importable(lines4, false) && Importable(lines6, true)
    ensures var dump4, dump6 := DumpFrom(lines4, false), DumpFrom(lines6, true);
            var dump := if p.v6 then dump6 else dump4;
            && (dump.Some? ==> ValidDump(dump.value, p.v6))
            && var r := AllHooks(MergedFamily(dump, p.v6, newID), stored, dump4, dump6, ipv6, p.v6, id);
            && (forall x :: x in r ==> x.Valid())
            && Or(FirstMatch(r, h, now, p, env), Some(PolicyVerdict(BaseAt(stored, dump4, dump6, ipv6, h))))
               == Some(FamilySource(dump, h, stored.Get(h), p))
  {
    hide Stream, ValidFile, ValidDump, DistinctRules, AllHooks, FirstMatch, BaseAt, MergedFamily, PolicyVerdict;
    if lines4.Some? { StreamValid(lines4.value, false); }
    if lines6.Some? { StreamValid(lines6.value, true); }
    var dump4, dump6 := DumpFrom(lines4, false), DumpFrom(lines6, true);
    if dump4.Some? { DumpConverts(dump4.value, false); }
    if dump6.Some? { DumpConverts(dump6.value, true); }
    DumpsKeepDecisions(stored, dump4, dump6, ipv6, id, newID, h, now, p, env);
  }

  lemma DumpConverts(d: Dump, v6: bool)
    requires ValidDump(d, v6)
    ensures StreamRules(d.chains, d.order, v6).Ok? && ValidChains(d.chains, v6)
  {
  }

  // ---- the import ----

  method ImportFamily(rules: seq<Rule>, lines: Option<seq<FileLine>>, v6: bool, newID: nat -> string)
    returns (r: Result<(seq<Rule>, Option<Dump>, bool)>)
    ensures r.Err? <==> lines.Some? && Stream(lines.value, v6).Err?
    ensures r.Ok? ==>
            r.value == (MergedInto(rules, DumpFrom(lines, v6), v6, newID), DumpFrom(lines, v6),
              Empty(DumpFrom(lines, v6), v6))
  {
    hide StreamRules, Merge, Parsed, OthersHarmless, PoliciesKnown, StatedPolicies;
    if lines.None? { return Ok((rules, None, true)); }
    var stream := ImportStream(lines.value, v6);
    if stream.Err? { return Err; }
    var dump, read := stream.value.0, stream.value.1;
    var merged, added := MergeRules(rules, read, newID);
    return Ok((merged, Some(dump), read == [] && dump.policies == map[]));
  }

  predicate Empty(dump: Option<Dump>, v6: bool)
  {
    dump.Some? ==> StreamRules(dump.value.chains, dump.value.order, v6) == Ok([]) && dump.value.policies == map[]
  }

  // Into any state: both streams merged, then the policies. Providing an
  // IPv6 dump switches IPv6 on.
  method ImportIptables(lines4: Option<seq<FileLine>>, lines6: Option<seq<FileLine>>, rules4: seq<Rule>,
                        rules6: seq<Rule>, stored: Policies, ipv6: bool, id: string, newID: nat -> string)
    returns (r: Result<Policied>, ipv6After: bool)
    ensures ipv6After == (ipv6 || lines6.Some?)
    ensures r.Ok? <==> Imports(lines4, lines6)
    ensures r.Ok? ==>
              var dump4, dump6 := DumpFrom(lines4, false), DumpFrom(lines6, true);
              var merged4, merged6 := MergedInto(rules4, dump4, false, newID), MergedInto(rules6, dump6, true, newID);
              && r.value.rules4 == AllHooks(merged4, stored, dump4, dump6, ipv6After, false, id)
              && r.value.rules6 ==
                 (if ipv6After then AllHooks(merged6, stored, dump4, dump6, ipv6After, true, id) else merged6)
              && forall h :: r.value.policies.Get(h) == BaseAt(stored, dump4, dump6, ipv6After, h)
  {
    hide StreamRules, Merge, AllHooks, BaseAt, Parsed, OthersHarmless, PoliciesKnown, StatedPolicies, MergedInto, Empty;
    ipv6After := ipv6 || lines6.Some?;
    var four := ImportFamily(rules4, lines4, false, newID);
    if four.Err? { return Err, ipv6After; }
    var six := ImportFamily(rules6, lines6, true, newID);
    if six.Err? { return Err, ipv6After; }
    if four.value.2 && six.value.2 { return Err, ipv6After; }
    var out := MergePolicies(four.value.0, six.value.0, stored, four.value.1, six.value.1, ipv6After, id);
    forall h ensures out.policies.Get(h) == BaseAt(stored, four.value.1, six.value.1, ipv6After, h) {
      match h
      case Input =>
      case Output =>
      case ForwardHook =>
    }
    return Ok(out), ipv6After;
  }

  // Both streams convert, and they do not both give nothing.
  predicate Imports(lines4: Option<seq<FileLine>>, lines6: Option<seq<FileLine>>)
  {
    && (lines4.Some? ==> Stream(lines4.value, false).Ok?)
    && (lines6.Some? ==> Stream(lines6.value, true).Ok?)
    && !(Empty(DumpFrom(lines4, false), false) && Empty(DumpFrom(lines6, true), true))
  }

  // ---- what the check of other tables lets through ----

  // The chains the kernel has in a table.
  function KernelChains(table: string): set<string>
  {
    if table == "mangle" then {"PREROUTING", "INPUT", "FORWARD", "OUTPUT", "POSTROUTING"}
    else if table == "nat" then {"PREROUTING", "INPUT", "OUTPUT", "POSTROUTING"}
    else if table == "raw" then {"PREROUTING", "OUTPUT"}
    else if table == "security" then {"INPUT", "FORWARD", "OUTPUT"}
    else {}
  }

  // Those among them whose policy the check does not look at.
  function UncheckedChains(table: string): set<string>
  {
    if table == "nat" then {"INPUT", "OUTPUT"}
    else if table == "raw" then {"OUTPUT"}
    else if table == "security" then {"INPUT", "FORWARD", "OUTPUT"}
    else {}
  }

  // None of the chains declares a policy other than accept.
  predicate Calm(t: Named, chains: set<string>)
  {
    forall n :: n in t.table.policies && n in chains ==>
                  t.table.policies[n].Unspecified? || t.table.policies[n].Accepts?
  }

  // The table has no effect: no rules, and no kernel chain with a policy.
  predicate Inert(t: Named)
  {
    && (forall i :: 0 <= i < |t.table.order| ==> RulesAt(t.table.chains, t.table.order[i]) == [])
    && Calm(t, KernelChains(t.name))
  }

  predicate KernelTable(name: string) { name in {"mangle", "nat", "raw", "security"} }

  lemma {:induction false} InertIff(t: Named)
    requires KernelTable(t.name) && HarmlessTable(t) && forall n :: n in t.table.policies ==> n in t.table.order
    ensures Inert(t) <==> Calm(t, UncheckedChains(t.name))
  {
    hide RulesAt;
    if Calm(t, UncheckedChains(t.name)) {
      forall n | n in t.table.policies && n in KernelChains(t.name)
        ensures t.table.policies[n].Unspecified? || t.table.policies[n].Accepts?
      {
        var i :| 0 <= i < |t.table.order| && t.table.order[i] == n;
        assert HarmlessChain(t, t.table.order[i]);
      }
    }
  }

  ghost predicate AllOrdered(tables: seq<Named>)
  {
    forall i :: 0 <= i < |tables| ==> Ordered(tables[i].table)
  }

  lemma {:induction false} ReadKeepsOrder(lines: seq<FileLine>)
    requires LinesRead(lines).Ok?
    ensures AllOrdered(LinesRead(lines).value.tables)
  {
    hide Ordered, LineAdded, HasTable;
    if lines != [] {
      var n := |lines| - 1;
      ReadKeepsOrder(lines[..n]);
      var s := LinesRead(lines[..n]).value;
      match lines[n]
      case OpenTable(_) => NothingValid(false);
      case InTable(line) => LineKeepsOrder(s.tables[|s.tables| - 1].table, line);
      case _ =>
    }
  }

  // For every stream that is let through: its other tables have no effect
  // if and only if none of the unchecked chains declares a policy other
  // than accept.
  lemma {:induction false} OthersInertIff(lines: seq<FileLine>, v6: bool)
    requires Stream(lines, v6).Ok?
    ensures var tables := Parsed(lines).value;
            (forall i :: 0 <= i < |tables| && KernelTable(tables[i].name) ==> Inert(tables[i])) <==>
            (forall i :: 0 <= i < |tables| && KernelTable(tables[i].name) ==>
                           Calm(tables[i], UncheckedChains(tables[i].name)))
  {
    hide LinesRead, StreamRules, PoliciesKnown, Inert, Calm, HarmlessTable, KernelTable;
    var tables := Parsed(lines).value;
    ReadKeepsOrder(lines);
    forall i | 0 <= i < |tables| && KernelTable(tables[i].name)
      ensures Inert(tables[i]) <==> Calm(tables[i], UncheckedChains(tables[i].name))
    {
      KernelNames(tables[i].name);
      assert HarmlessTable(tables[i]) && Ordered(tables[i].table);
      InertIff(tables[i]);
    }
  }

  lemma KernelNames(name: string)
    requires KernelTable(name)
    ensures name != "filter"
  {
  }

  // A filter table that drops input, and a security table that does.
  const SECURITY_DUMP: seq<FileLine> :=
    [OpenTable("filter"), InTable(Declare("INPUT", Drops)), CommitTable,
     OpenTable("security"), InTable(Declare("INPUT", Drops)), CommitTable]

  function OneChain(policy: ChainPolicy): Table { Table(map["INPUT" := []], map["INPUT" := policy], ["INPUT"]) }

  lemma ReadNext(lines: seq<FileLine>, l: FileLine)
    ensures LinesRead(lines + [l]) == (var s := LinesRead(lines); if s.Err? then Err else LineRead(s.value, l))
  {
    hide LineRead;
    assert (lines + [l])[..|lines|] == lines;
  }

  // A table that declares INPUT and nothing else.
  lemma ReadTable(lines: seq<FileLine>, tables: seq<Named>, name: string, policy: ChainPolicy)
    requires LinesRead(lines) == Ok(Save(tables, false)) && !HasTable(tables, name)
    ensures LinesRead(lines + [OpenTable(name), InTable(Declare("INPUT", policy)), CommitTable]) ==
            Ok(Save(tables + [Named(name, OneChain(policy))], false))
  {
    hide LinesRead, HasTable;
    var a, b, c := OpenTable(name), InTable(Declare("INPUT", policy)), CommitTable;
    ReadNext(lines, a);
    ReadNext(lines + [a], b);
    ReadNext(lines + [a] + [b], c);
    assert lines + [a] + [b] + [c] == lines + [a, b, c];
    assert [] + ["INPUT"] == ["INPUT"];
    assert LineAdded(NO_CHAINS, Declare("INPUT", policy)) == Ok(OneChain(policy));
    var open := tables + [Named(name, NO_CHAINS)];
    assert open[..|open| - 1] == tables;
  }

  lemma SecurityRead()
    ensures Parsed(SECURITY_DUMP) == Ok([Named("filter", OneChain(Drops)), Named("security", OneChain(Drops))])
  {
    hide LinesRead;
    assert LinesRead([]) == Ok(Save([], false)) by { NothingRead(); }
    ReadTable([], [], "filter", Drops);
    var filter, security := Named("filter", OneChain(Drops)), Named("security", OneChain(Drops));
    var first := [OpenTable("filter"), InTable(Declare("INPUT", Drops)), CommitTable];
    assert [] + first == first && [] + [filter] == [filter] && [filter] + [security] == [filter, security];
    ReadTable(first, [filter], "security", Drops);
    assert SECURITY_DUMP == first + [OpenTable("security"), InTable(Declare("INPUT", Drops)), CommitTable];
  }

  lemma NothingRead()
    ensures LinesRead([]) == Ok(Save([], false))
  {
  }

  // The import accepts this dump for IPv4 alone, although its security
  // table drops input.
  lemma {:induction false} SecurityPolicyIgnored()
    ensures Imports(Some(SECURITY_DUMP), None)
    ensures Parsed(SECURITY_DUMP).Ok?
            && exists i :: && 0 <= i < |Parsed(SECURITY_DUMP).value| && KernelTable(Parsed(SECURITY_DUMP).value[i].name)
                           && !Inert(Parsed(SECURITY_DUMP).value[i])
  {
    hide Parsed;
    SecurityRead();
    var tables := Parsed(SECURITY_DUMP).value;
    var t := OneChain(Drops);
    assert tables[..1] == [tables[0]];
    assert FilterOf(tables) == FilterOf(tables[..1]) == t;
    assert HarmlessTable(tables[1]);
    assert t.order[..0] == [];
    assert StreamRules(t.chains, t.order, false) == Ok([] + []);
    assert StatedPolicies(t, t.order) == map["INPUT" := DenyPolicy];
    assert Stream(SECURITY_DUMP, false) == Ok(DumpOf(t));
    assert "INPUT" in DumpOf(t).policies;
    assert !Calm(tables[1], KernelChains("security")) by { assert "INPUT" in tables[1].table.policies; }
  }
}
