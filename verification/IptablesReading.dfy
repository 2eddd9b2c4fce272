/** The iptables import told on the lines and declarations of a dump: what
    each line does, which dumps are taken, and what the policies mean. */
module IptablesReading {
  import opened Bytes
  import opened AddressSets
  import opened Outcomes
  import opened Rules
  import opened Netfilter
  import opened Matching
  import opened RuleCompiler
  import opened BuiltinChains
  import opened Compiler
  import opened IptablesImport
  import N = Normalization

  // ---- one line ----

  // The rules of a chain, and those of every other chain as they were.
  predicate OnlyChain(t: Table, u: Table, name: string)
  {
    && u.chains.Keys == t.chains.Keys + {name}
    && forall n :: n in t.chains && n != name ==> n in u.chains && u.chains[n] == t.chains[n]
  }

  // An inserted rule has the number asked for, an appended one the last;
  // taking it out again gives the chain before. A declaration gives a chain
  // its policy once.
  lemma {:induction false} LineMeans(t: Table, line: Line)
    ensures var was, r := RulesAt(t.chains, line.chain), LineAdded(t, line);
            && (r.Ok? <==> match line
                           case Declare(n, _) => n !in t.policies
                           case Append(_, _) => true
                           case InsertAt(_, pos, _) => 1 <= pos <= |was| + 1)
            && (r.Ok? ==>
                  && OnlyChain(t, r.value, line.chain) && line.chain in r.value.chains
                  && var now := r.value.chains[line.chain];
                  match line
                  case Declare(n, policy) =>
                    now == was && r.value.policies.Keys == t.policies.Keys + {n} && r.value.policies[n] == policy
                    && forall m :: m in t.policies ==> r.value.policies[m] == t.policies[m]
                  case Append(_, spec) =>
                    |now| == |was| + 1 && now[..|was|] == was && now[|was|] == spec && r.value.policies == t.policies
                  case InsertAt(_, pos, spec) =>
                    |now| == |was| + 1 && now[pos - 1] == spec && now[..pos - 1] + now[pos..] == was
                    && r.value.policies == t.policies)
  {
    hide RulesAt;
    var was := RulesAt(t.chains, line.chain);
    if line.InsertAt? && 1 <= line.pos <= |was| + 1 { PlacedAt(was, line.pos - 1, line.spec); }
  }

  lemma PlacedAt(was: seq<Spec>, k: nat, spec: Spec)
    requires k <= |was|
    ensures var now := was[..k] + [spec] + was[k..];
            |now| == |was| + 1 && now[k] == spec && now[..k] + now[k + 1..] == was
  {
    var now := was[..k] + [spec] + was[k..];
    assert now[..k] == was[..k] && now[k + 1..] == was[k..] && was[..k] + was[k..] == was;
  }

  // ---- the tables of a dump ----

  // The lines of one table, one after the other.
  function Filled(lines: seq<Line>): Result<Table>
  {
    if lines == [] then Ok(NO_CHAINS)
    else
      var init := Filled(lines[..|lines| - 1]);
      if init.Err? then Err else LineAdded(init.value, lines[|lines| - 1])
  }

  function InTables(lines: seq<Line>): (r: seq<FileLine>)
    ensures |r| == |lines|
  {
    seq(|lines|, i requires 0 <= i < |lines| => InTable(lines[i]))
  }

  function Section(name: string, lines: seq<Line>): seq<FileLine>
  {
    [OpenTable(name)] + (InTables(lines) + [CommitTable])
  }

  lemma {:induction false} BodyRead(lines: seq<FileLine>, tables: seq<Named>, name: string, body: seq<Line>)
    requires LinesRead(lines) == Ok(Save(tables, false)) && !HasTable(tables, name)
    ensures LinesRead(lines + ([OpenTable(name)] + InTables(body))) ==
            (var f := Filled(body); if f.Err? then Err else Ok(Save(tables + [Named(name, f.value)], true)))
  {
    hide HasTable, LineAdded;
    var all := lines + ([OpenTable(name)] + InTables(body));
    if body == [] {
      assert all == lines + [OpenTable(name)] && all[..|lines|] == lines;
    } else {
      var n := |body| - 1;
      BodyRead(lines, tables, name, body[..n]);
      assert all[..|all| - 1] == lines + ([OpenTable(name)] + InTables(body[..n]));
      var f := Filled(body[..n]);
      if f.Ok? {
        var open := tables + [Named(name, f.value)];
        assert open[..|open| - 1] == tables;
      }
    }
  }

  // A further section adds its table, unless the name is taken or one of
  // its lines is refused.
  lemma {:induction false} SectionRead(lines: seq<FileLine>, name: string, body: seq<Line>)
    requires Parsed(lines).Ok?
    ensures Parsed(lines + Section(name, body)) ==
            (var tables := Parsed(lines).value;
              if (exists i :: 0 <= i < |tables| && tables[i].name == name) || Filled(body).Err? then Err
              else Ok(tables + [Named(name, Filled(body).value)]))
  {
    hide LinesRead, LineAdded, Filled;
    var tables := Parsed(lines).value;
    var open := [OpenTable(name)] + InTables(body);
    assert lines + Section(name, body) == (lines + open) + [CommitTable];
    ReadNext(lines + open, CommitTable);
    if HasTable(tables, name) {
      ReadNext(lines, OpenTable(name));
      StaysRefused(lines + [OpenTable(name)], InTables(body) + [CommitTable]);
      assert lines + [OpenTable(name)] + (InTables(body) + [CommitTable]) == lines + Section(name, body);
    } else {
      BodyRead(lines, tables, name, body);
    }
  }

  lemma {:induction false} StaysRefused(lines: seq<FileLine>, more: seq<FileLine>)
    requires LinesRead(lines).Err?
    ensures LinesRead(lines + more).Err?
  {
    hide LineRead;
    if more == [] {
      assert lines + more == lines;
    } else {
      StaysRefused(lines, more[..|more| - 1]);
      assert (lines + more)[..|lines + more| - 1] == lines + more[..|more| - 1];
    }
  }

  lemma NothingParsed()
    ensures Parsed([]) == Ok([])
  {
  }

  // Where the open section of a readable dump began.
  lemma {:induction false} OpenSection(lines: seq<FileLine>)
    returns (before: seq<FileLine>, name: string, body: seq<Line>)
    requires LinesRead(lines).Ok? && LinesRead(lines).value.open
    ensures lines == before + ([OpenTable(name)] + InTables(body))
    ensures Parsed(before).Ok?
  {
    hide LineAdded, HasTable;
    var n := |lines| - 1;
    match lines[n]
    case OpenTable(t) =>
      before, name, body := lines[..n], t, [];
      assert lines == before + ([OpenTable(name)] + []);
    case InTable(line) =>
      var b, t, init := OpenSection(lines[..n]);
      before, name, body := b, t, init + [line];
      assert InTables(body) == InTables(init) + [InTable(line)];
      assert lines == lines[..n] + [lines[n]];
  }

  // Nothing else is a dump: a readable one is empty, or a readable one with
  // one more section.
  lemma {:induction false} SectionsOnly(lines: seq<FileLine>)
    returns (before: seq<FileLine>, name: string, body: seq<Line>)
    requires Parsed(lines).Ok? && lines != []
    ensures lines == before + Section(name, body) && Parsed(before).Ok?
  {
    hide LineAdded, HasTable;
    var n := |lines| - 1;
    assert lines == lines[..n] + [lines[n]];
    before, name, body := OpenSection(lines[..n]);
    assert before + ([OpenTable(name)] + InTables(body)) + [CommitTable] == before + Section(name, body);
  }

  ghost predicate NamesOnce(tables: seq<Named>)
  {
    forall i, j :: 0 <= i < j < |tables| ==> tables[i].name != tables[j].name
  }

  lemma {:induction false} ReadOnce(lines: seq<FileLine>)
    requires LinesRead(lines).Ok?
    ensures NamesOnce(LinesRead(lines).value.tables)
  {
    hide LineAdded;
    if lines != [] { ReadOnce(lines[..|lines| - 1]); }
  }

  // The filter table is the table of that name.
  lemma {:induction false} FilterMeans(tables: seq<Named>)
    requires NamesOnce(tables)
    ensures forall i :: 0 <= i < |tables| && tables[i].name == "filter" ==> FilterOf(tables) == tables[i].table
    ensures (forall i :: 0 <= i < |tables| ==> tables[i].name != "filter") ==> FilterOf(tables) == NO_CHAINS
  {
    if tables != [] {
      var n := |tables| - 1;
      assert NamesOnce(tables[..n]);
      FilterMeans(tables[..n]);
      assert forall i :: 0 <= i < n ==> tables[..n][i] == tables[i];
    }
  }

  // ---- which dumps are taken ----

  // iptables looks at this rule: no unconditional return before it.
  predicate Reached(specs: seq<Spec>, i: nat)
    requires i <= |specs|
  {
    forall j :: 0 <= j < i ==> !specs[j].ReturnAll?
  }

  predicate SomeVerdict(specs: seq<Spec>, i: nat)
    requires i <= |specs|
  {
    exists j :: 0 <= j < i && specs[j].Terminal?
  }

  // The rule can be written, and connection tracking comes before the rules
  // with a verdict.
  predicate Fine(specs: seq<Spec>, i: nat)
    requires i < |specs|
  {
    !specs[i].Unsupported? && (specs[i].Preamble? ==> !SomeVerdict(specs, i))
  }

  // Every rule iptables looks at.
  predicate Writable(specs: seq<Spec>) { forall i :: 0 <= i < |specs| && Reached(specs, i) ==> Fine(specs, i) }

  lemma {:induction false} ConvertsFrom(specs: seq<Spec>, k: nat, h: Hook, v6: bool)
    requires k <= |specs| && Reached(specs, k)
    ensures ConvertChain(specs[k..], h, v6, SomeVerdict(specs, k)).Ok? <==>
            forall i :: k <= i < |specs| && Reached(specs, i) ==> Fine(specs, i)
    decreases |specs| - k
  {
    hide Converted;
    if k < |specs| {
      assert specs[k..][0] == specs[k] && specs[k..][1..] == specs[k + 1..];
      if specs[k].ReturnAll? {
        assert forall i :: k < i < |specs| ==> !Reached(specs, i);
      } else {
        assert SomeVerdict(specs, k + 1) <==> SomeVerdict(specs, k) || specs[k].Terminal?;
        ConvertsFrom(specs, k + 1, h, v6);
      }
    }
  }

  // A chain converts exactly when every rule that iptables looks at does.
  lemma {:induction false} ConvertsIff(specs: seq<Spec>, h: Hook, v6: bool)
    ensures ConvertChain(specs, h, v6, false).Ok? <==> Writable(specs)
  {
    hide ConvertChain;
    assert specs[0..] == specs;
    ConvertsFrom(specs, 0, h, v6);
  }

  predicate BuiltinName(n: string) { n == "INPUT" || n == "OUTPUT" || n == "FORWARD" }

  lemma {:induction false} StreamIff(chains: map<string, seq<Spec>>, order: seq<string>, v6: bool)
    ensures StreamRules(chains, order, v6).Ok? <==>
            forall i :: 0 <= i < |order| && BuiltinName(order[i]) ==> Writable(RulesAt(chains, order[i]))
  {
    hide ConvertChain, Writable, RulesAt;
    if order != [] {
      var n := |order| - 1;
      StreamIff(chains, order[..n], v6);
      if BuiltinName(order[n]) { ConvertsIff(RulesAt(chains, order[n]), BuiltinHook(order[n]).value, v6); }
      assert forall i :: 0 <= i < n ==> order[..n][i] == order[i];
    }
  }

  // The chains whose policy is looked at in a table that is not imported.
  predicate PolicyChecked(table: string, chain: string)
  {
    match table
    case "filter" => chain in {"INPUT", "OUTPUT", "FORWARD"}
    case "mangle" => chain in {"INPUT", "OUTPUT", "FORWARD", "PREROUTING", "POSTROUTING"}
    case "nat" => chain in {"PREROUTING", "POSTROUTING"}
    case "raw" => chain in {"PREROUTING", "POSTROUTING"}
    case "security" => chain in {"PREROUTING", "POSTROUTING"}
    case _ => false
  }

  // No rules, and no such policy but accept.
  predicate Passed(t: Named)
  {
    && (forall n :: n in t.table.chains ==> t.table.chains[n] == [])
    && forall n :: n in t.table.policies && PolicyChecked(t.name, n) ==>
         t.table.policies[n].Unspecified? || t.table.policies[n].Accepts?
  }

  lemma {:induction false} PassedIff(t: Named)
    requires Ordered(t.table)
    ensures HarmlessTable(t) <==> Passed(t)
  {
    forall n | n in t.table.order ensures BuiltinOf(t.name, n) <==> PolicyChecked(t.name, n) {
      CheckedNames(t.name, n);
    }
    if HarmlessTable(t) {
      forall n | n in t.table.chains ensures HarmlessChain(t, n) {
        var i :| 0 <= i < |t.table.order| && t.table.order[i] == n;
      }
    }
  }

  lemma CheckedNames(table: string, chain: string)
    ensures BuiltinOf(table, chain) <==> PolicyChecked(table, chain)
  {
  }

  ghost predicate FilterTaken(t: Table)
  {
    && (forall n :: n in t.policies && BuiltinName(n) ==> !t.policies[n].BadPolicy?)
    && forall n :: n in t.chains && BuiltinName(n) ==> Writable(t.chains[n])
  }

  // A dump is taken exactly when it can be read, its other tables pass, and
  // the built-in chains of its filter table have known policies and rules
  // that can be written.
  lemma {:induction false} TakenIff(lines: seq<FileLine>, v6: bool)
    ensures Stream(lines, v6).Ok? <==>
            && Parsed(lines).Ok?
            && var tables := Parsed(lines).value;
            && (forall i :: 0 <= i < |tables| && tables[i].name != "filter" ==> Passed(tables[i]))
            && (forall i :: 0 <= i < |tables| && tables[i].name == "filter" ==> FilterTaken(tables[i].table))
  {
    hide LinesRead, Writable, FilterTaken, Passed, FilterOf, StreamRules, PoliciesKnown, HarmlessTable, Ordered;
    if Parsed(lines).Ok? {
      var tables := Parsed(lines).value;
      ReadOnce(lines);
      ReadKeepsOrder(lines);
      FilterMeans(tables);
      forall i | 0 <= i < |tables| ensures HarmlessTable(tables[i]) <==> Passed(tables[i]) { PassedIff(tables[i]); }
      var t := FilterOf(tables);
      if i :| 0 <= i < |tables| && tables[i].name == "filter" {
        FilterIff(t, v6);
        assert forall j :: 0 <= j < |tables| && tables[j].name == "filter" ==> tables[j].table == t;
      } else {
        EmptyTaken(v6);
      }
    }
  }

  lemma FilterIff(t: Table, v6: bool)
    requires Ordered(t)
    ensures PoliciesKnown(t) && StreamRules(t.chains, t.order, v6).Ok? <==> FilterTaken(t)
  {
    hide Writable, StreamRules;
    StreamIff(t.chains, t.order, v6);
    forall n | n in t.order && BuiltinName(n) ensures BuiltinHook(n).Some? {}
    if PoliciesKnown(t) && StreamRules(t.chains, t.order, v6).Ok? {
      forall n | n in t.chains && BuiltinName(n) ensures Writable(t.chains[n]) {
        var i :| 0 <= i < |t.order| && t.order[i] == n;
        assert RulesAt(t.chains, t.order[i]) == t.chains[n];
      }
      forall n | n in t.policies && BuiltinName(n) ensures !t.policies[n].BadPolicy? {
        var i :| 0 <= i < |t.order| && t.order[i] == n;
        assert !DeclaredFor(t, t.order[i]).BadPolicy?;
      }
    }
    if FilterTaken(t) {
      forall i | 0 <= i < |t.order| && BuiltinHook(t.order[i]).Some?
        ensures !DeclaredFor(t, t.order[i]).BadPolicy? && Writable(RulesAt(t.chains, t.order[i]))
      {
        assert t.order[i] in t.chains;
      }
    }
  }

  lemma EmptyTaken(v6: bool)
    ensures PoliciesKnown(NO_CHAINS) && StreamRules(NO_CHAINS.chains, NO_CHAINS.order, v6).Ok?
  {
  }

  // ---- what the policies mean ----

  // The verdict of a declared policy, and otherwise of the stored one.
  function DeclaredVerdict(t: Table, h: Hook, stored: Policy): Decision
  {
    var n := ChainName(h);
    if n in t.policies && t.policies[n].Accepts? then Accepted
    else if n in t.policies && t.policies[n].Drops? then Dropped
    else if n in t.policies && t.policies[n].Rejects? then Rejected
    else StoredVerdict(stored)
  }

  function StoredVerdict(stored: Policy): Decision
  {
    match stored
    case AllowPolicy => Accepted
    case RejectPolicy => Rejected
    case DenyPolicy => Dropped
    case OtherPolicy(_) => Dropped
  }

  lemma {:induction false} StatedMeans(t: Table, order: seq<string>, h: Hook)
    ensures var n, s := ChainName(h), StatedPolicies(t, order);
            && (n in s <==> n in order && n in t.policies && (t.policies[n].Accepts? || t.policies[n].Drops?
                                                             || t.policies[n].Rejects?))
            && (n in s ==> s[n] == match t.policies[n]
                                   case Accepts => AllowPolicy
                                   case Drops => DenyPolicy
                                   case _ => RejectPolicy)
  {
    if order != [] { StatedMeans(t, order[..|order| - 1], h); }
  }

  // What the import puts behind a family's chain: the declared policy's
  // verdict, or the stored one's where none is declared or no dump given.
  lemma {:induction false} PolicyMeans(t: Table, h: Hook, stored: Policy)
    requires Ordered(t)
    ensures PolicyVerdict(FamilyPolicy(Some(DumpOf(t)), h, stored)) == DeclaredVerdict(t, h, stored)
    ensures PolicyVerdict(FamilyPolicy(None, h, stored)) == StoredVerdict(stored)
  {
    hide StatedPolicies;
    StatedMeans(t, t.order, h);
  }

  function Strictness(d: Decision): nat
  {
    match d
    case Accepted => 1
    case Rejected => 2
    case Dropped => 3
  }

  // The global policy is one of the families' and none is stricter.
  lemma {:induction false} BaseMeans(stored: Policies, dump4: Option<Dump>, dump6: Option<Dump>, ipv6: bool, h: Hook)
    requires forall n :: dump4.Some? && n in dump4.value.policies ==> !dump4.value.policies[n].OtherPolicy?
    requires forall n :: dump6.Some? && n in dump6.value.policies ==> !dump6.value.policies[n].OtherPolicy?
    ensures var base := PolicyVerdict(BaseAt(stored, dump4, dump6, ipv6, h));
            var four := PolicyVerdict(FamilyPolicy(dump4, h, stored.Get(h)));
            var six := PolicyVerdict(FamilyPolicy(dump6, h, stored.Get(h)));
            if !ipv6 then base == four
            else (base == four || base == six) && Strictness(four) <= Strictness(base)
                 && Strictness(six) <= Strictness(base)
  {
  }

  // What a rule of the import keeps of its line.
  lemma {:induction false} ConvertedFields(c: Criteria, action: Action, comment: string, h: Hook, v6: bool)
    ensures var r := Converted(c, action, comment, h, v6);
            && r.action == action && r.comment == comment && r.log == LogNone && r.v6 == v6
            && r.direction == match h
                              case Input => In
                              case Output => Out
                              case ForwardHook => Routed
  {
    hide N.CanonAddr, N.SortPorts, N.Widest;
  }

  // The rule that closes a family's list is there once.
  lemma {:induction false} CatchallOnce(rules: seq<Rule>, h: Hook, pol: Policy, v6: bool, id: string, again: string)
    ensures var once := WithCatchall(rules, h, pol, v6, id);
            WithCatchall(once, h, pol, v6, again) == once
  {
    var last := LastOf(rules, IptablesImport.DirectionOf(h));
    if !(last.Some? && Match(last.value, Catchall(h, pol, v6, "")) == MatchExact) {
      var once := rules + [Catchall(h, pol, v6, id)];
      assert LastOf(once, IptablesImport.DirectionOf(h)) == Some(Catchall(h, pol, v6, id));
    }
  }
}
