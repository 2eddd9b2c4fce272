/** The per-family rule list: positional insert, update and delete over rule
    identities, and deletion of whole app groups. */
module RuleList {
  import opened Bytes
  import opened AddressSets
  import opened Outcomes
  import opened Rules

  datatype Change = Added | Updated | Inserted | Deleted | SkipAdd | SkipInsert | NotFound

  // ---- app groups ----

  // The address column of a rule: Blank stands for no rule at all.
  datatype Column = Blank | SetColumn(name: string) | AddrColumn(addr: Addr)

  function ColumnOf(a: AddrSpec, v6: bool): Column
  {
    if a.setName != "" then SetColumn(a.setName)
    else if a.ip.Any() then AddrColumn(Cidr(Net(Zeros(if v6 then 16 else 4), 0)))
    else AddrColumn(a.ip)
  }

  datatype Group = Group(dst: Column, src: Column, dapp: string, sapp: string)
  {
    predicate IsApp() { dapp != "" || sapp != "" }
  }

  function GroupOf(r: Rule, v6: bool): Group
  {
    Group(ColumnOf(r.dst, v6), ColumnOf(r.src, v6), r.dapp, r.sapp)
  }

  // Neighbours that came from one application of an app profile.
  predicate Glued(a: Rule, b: Rule, v6: bool)
  {
    a.IsApp() && b.IsApp() && GroupOf(a, v6) == GroupOf(b, v6)
  }

  // A rule may be inserted before index i without splitting a group.
  predicate Open(list: seq<Rule>, i: nat, v6: bool)
    requires i < |list|
  {
    i == 0 || !Glued(list[i - 1], list[i], v6)
  }

  // The first open index from i on.
  function Slot(list: seq<Rule>, i: nat, v6: bool): Option<nat>
    decreases |list| - i
  {
    if i >= |list| then None
    else if Open(list, i, v6) then Some(i)
    else Slot(list, i + 1, v6)
  }

  lemma {:induction false} SlotIsLeast(list: seq<Rule>, i: nat, v6: bool)
    ensures Slot(list, i, v6).Some? ==>
              var k := Slot(list, i, v6).value;
              i <= k < |list| && Open(list, k, v6) && forall j :: i <= j < k ==> !Open(list, j, v6)
    ensures Slot(list, i, v6).None? ==> forall j :: i <= j < |list| ==> !Open(list, j, v6)
    decreases |list| - i
  {
    if i < |list| && !Open(list, i, v6) {
      SlotIsLeast(list, i + 1, v6);
    }
  }

  // ---- identities in a list ----

  ghost predicate Distinct(list: seq<Rule>)
  {
    forall i, j :: 0 <= i < j < |list| ==> KeyOf(list[i]) != KeyOf(list[j])
  }

  ghost predicate HasKey(list: seq<Rule>, key: TupleKey)
  {
    exists i :: 0 <= i < |list| && KeyOf(list[i]) == key
  }

  function Find(list: seq<Rule>, key: TupleKey): (m: Option<nat>)
    ensures m.Some? ==> m.value < |list| && KeyOf(list[m.value]) == key
    ensures m.Some? ==> forall j :: 0 <= j < m.value ==> KeyOf(list[j]) != key
    ensures m.None? <==> !HasKey(list, key)
  {
    if list == [] then None
    else
      var init := Find(list[..|list| - 1], key);
      if init.Some? then init
      else if KeyOf(list[|list| - 1]) == key then Some(|list| - 1) else None
  }

  // A delete matches the same action and log; a comment only has to agree
  // when the command gives one.
  predicate Deletes(r: Rule, nr: Rule)
  {
    Match(r, nr) == MatchExact || (Match(r, nr) == MatchComment && nr.comment == "")
  }

  // What one call does to a list with distinct identities.
  function SetRule(list: seq<Rule>, nr: Rule, pos: nat, remove: bool): (seq<Rule>, Change)
  {
    var m := Find(list, KeyOf(nr));
    var k := if pos > 0 then Slot(list, pos - 1, nr.v6) else None;
    if remove then
      if m.Some? && Deletes(list[m.value], nr) then (list[..m.value] + list[m.value + 1..], Deleted)
      else (list, NotFound)
    else if k.Some? then
      if m.Some? then (list, SkipInsert)
      else
        SlotIsLeast(list, pos - 1, nr.v6);
        (list[..k.value] + [nr] + list[k.value..], Inserted)
    else if m.None? then (list + [nr], Added)
    else if Match(list[m.value], nr) == MatchExact then (list, SkipAdd)
    else (list[m.value := nr], Updated)
  }

  // The variables of the walk.
  datatype Walk = Walk(newrules: seq<Rule>, found: bool, modified: bool, inserted: bool, matches: nat)
  {
    function Place(nr: Rule): Walk { this.(newrules := newrules + [nr], inserted := true) }

    function Visit(r: Rule, nr: Rule, remove: bool): Walk
    {
      var code := Match(r, nr);
      var w := if code != MatchNone then this.(matches := matches + 1) else this;
      if code == MatchExact && !found && !inserted then
        w.(found := true, newrules := if remove then newrules else newrules + [nr])
      else if code == MatchComment && remove && nr.comment == "" then w.(found := true)
      else if (code == MatchComment || code == MatchAction) && !remove && !inserted then
        w.(found := true, modified := true, newrules := newrules + [nr])
      else w.(newrules := newrules + [r])
    }
  }

  // Progress of the walk after i rules.
  ghost predicate Walked(list: seq<Rule>, nr: Rule, remove: bool, k: Option<nat>, m: Option<nat>, i: nat, w: Walk)
    requires i <= |list| && (m.Some? ==> m.value < |list|)
  {
    var seen := m.Some? && m.value < i;
    && (w.inserted <==> k.Some? && k.value < i)
    && (w.matches > 0 <==> seen)
    && (w.inserted && !seen ==> w.newrules == list[..k.value] + [nr] + list[k.value..i])
    && (!w.inserted && !seen ==> w.newrules == list[..i] && !w.found && !w.modified)
    && (!w.inserted && seen ==>
          if remove then
            !w.modified && w.found == Deletes(list[m.value], nr)
            && w.newrules == if w.found then list[..m.value] + list[m.value + 1..i] else list[..i]
          else
            w.found && w.modified == (Match(list[m.value], nr) != MatchExact) && w.newrules == list[..i][m.value := nr])
  }

  lemma WalkNext(list: seq<Rule>, nr: Rule, remove: bool, k: Option<nat>, m: Option<nat>, i: nat, w: Walk)
    requires i < |list| && (m.Some? ==> m.value < |list|) && Walked(list, nr, remove, k, m, i, w)
    requires Match(list[i], nr) != MatchNone <==> m == Some(i)
    requires remove ==> k == None
    ensures Walked(list, nr, remove, k, m, i + 1, (if k == Some(i) then w.Place(nr) else w).Visit(list[i], nr, remove))
  {
    hide Match;
    assert list[..i + 1] == list[..i] + [list[i]];
    if m == Some(i) {
      assert list[i + 1..i + 1] == [] && list[..i] + [] == list[..i];
      assert (list[..i] + [list[i]])[i := nr] == list[..i] + [nr];
    } else if m.Some? && m.value < i {
      assert list[m.value + 1..i + 1] == list[m.value + 1..i] + [list[i]];
      assert (list[..i] + [list[i]])[m.value := nr] == list[..i][m.value := nr] + [list[i]];
    }
    if k.Some? && k.value <= i {
      assert list[k.value..i + 1] == list[k.value..i] + [list[i]];
    }
  }

  lemma WalkStart(list: seq<Rule>, nr: Rule, remove: bool, k: Option<nat>, m: Option<nat>)
    requires m.Some? ==> m.value < |list|
    ensures Walked(list, nr, remove, k, m, 0, Walk([], false, false, false, 0))
  {
  }

  lemma DistinctMatch(list: seq<Rule>, nr: Rule, i: nat)
    requires Distinct(list) && i < |list|
    ensures Match(list[i], nr) != MatchNone <==> Find(list, KeyOf(nr)) == Some(i)
  {
    hide KeyOf;
    var m := Find(list, KeyOf(nr));
    if KeyOf(list[i]) == KeyOf(nr) { assert HasKey(list, KeyOf(nr)); }
  }

  // setRuleEngine: one walk that slides the insert position past app groups
  // and replaces or drops the matching rule.
  method SetRuleEngine(list: seq<Rule>, nr: Rule, pos0: nat, remove: bool) returns (out: seq<Rule>, oc: Change)
    requires pos0 <= |list| && (remove ==> pos0 == 0)
    ensures oc == SkipAdd || oc == SkipInsert || oc == NotFound ==> out == list
    ensures Distinct(list) ==> (out, oc) == SetRule(list, nr, pos0, remove)
  {
    hide Match, GroupOf, Walked, KeyOf, Slot, Open, Group.IsApp, Rule.IsApp, SetRule, Find, Distinct;
    var newrules: seq<Rule> := [];
    var found, modified, inserted, matches, count, pos := false, false, false, 0, 1, pos0;
    var last, v6 := Group(Blank, Blank, "", ""), nr.v6;
    ghost var k := if pos0 > 0 then Slot(list, pos0 - 1, v6) else None;
    ghost var m := Find(list, KeyOf(nr));
    WalkStart(list, nr, remove, k, m);
    for i := 0 to |list|
      invariant count == i + 1 && matches >= 0
      invariant i == 0 ==> last == Group(Blank, Blank, "", "")
      invariant i > 0 ==> last == GroupOf(list[i - 1], v6)
      invariant inserted ==> k.Some? && k.value < i && pos == k.value + 1
      invariant !inserted && pos0 > 0 ==> pos > i && Slot(list, pos - 1, v6) == k
      invariant pos0 == 0 ==> pos == 0 && k == None
      invariant Distinct(list) ==> Walked(list, nr, remove, k, m, i, Walk(newrules, found, modified, inserted, matches))
    {
      var r := list[i];
      var current := GroupOf(r, v6);
      OpenIff(list, i, v6, last);
      ghost var w := Walk(newrules, found, modified, inserted, matches);
      if pos > 0 { SlotIsLeast(list, pos - 1, v6); }
      SlotStep(list, i, v6);
      if count == pos {
        if (!last.IsApp() && count > 1) || !current.IsApp() || last != current {
          inserted := true;
          newrules := newrules + [nr];
          last := Group(Blank, Blank, "", "");
        } else {
          pos := pos + 1;
        }
      }
      last := current;
      count := count + 1;
      var code := Match(r, nr);
      if code != MatchNone { matches := matches + 1; }
      if code == MatchExact && !found && !inserted {
        found := true;
        if !remove { newrules := newrules + [nr]; }
      } else if code == MatchComment && remove && nr.comment == "" {
        found := true;
      } else if (code == MatchComment || code == MatchAction) && !remove && !inserted {
        found, modified := true, true;
        newrules := newrules + [nr];
      } else {
        newrules := newrules + [r];
      }
      assert Walk(newrules, found, modified, inserted, matches)
             == (if k == Some(i) then w.Place(nr) else w).Visit(r, nr, remove);
      if Distinct(list) {
        DistinctMatch(list, nr, i);
        WalkNext(list, nr, remove, k, m, i, w);
      }
    }
    Finish(list);
    if Distinct(list) { WalkDone(list, nr, pos0, remove, k, m, Walk(newrules, found, modified, inserted, matches)); }
    if inserted {
      if matches > 0 { return list, SkipInsert; }
      return newrules, Inserted;
    }
    if !found && !remove { newrules := newrules + [nr]; }
    if !found && remove { return list, NotFound; }
    if found && !remove && !modified { return list, SkipAdd; }
    if remove { return newrules, Deleted; }
    if modified { return newrules, Updated; }
    return newrules, Added;
  }

  // What the end of the walk returns.
  function Outcome(list: seq<Rule>, nr: Rule, remove: bool, w: Walk): (seq<Rule>, Change)
  {
    var all := if !w.found && !remove then w.newrules + [nr] else w.newrules;
    if w.inserted then if w.matches > 0 then (list, SkipInsert) else (w.newrules, Inserted)
    else if !w.found && remove then (list, NotFound)
    else if w.found && !remove && !w.modified then (list, SkipAdd)
    else if remove then (all, Deleted)
    else if w.modified then (all, Updated)
    else (all, Added)
  }

  lemma WalkDone(list: seq<Rule>, nr: Rule, pos: nat, remove: bool, k: Option<nat>, m: Option<nat>, w: Walk)
    requires m == Find(list, KeyOf(nr)) && k == (if pos > 0 then Slot(list, pos - 1, nr.v6) else None)
    requires Walked(list, nr, remove, k, m, |list|, w) && (remove ==> pos == 0)
    ensures Outcome(list, nr, remove, w) == SetRule(list, nr, pos, remove)
  {
    hide Match, KeyOf, Find, Slot;
    Finish(list);
    if pos > 0 { SlotIsLeast(list, pos - 1, nr.v6); }
  }

  lemma OpenIff(list: seq<Rule>, i: nat, v6: bool, last: Group)
    requires i < |list| && last == if i > 0 then GroupOf(list[i - 1], v6) else Group(Blank, Blank, "", "")
    ensures Open(list, i, v6) <==>
            (!last.IsApp() && i > 0) || !GroupOf(list[i], v6).IsApp() || last != GroupOf(list[i], v6)
  {
  }

  lemma SlotStep(list: seq<Rule>, i: nat, v6: bool)
    requires i < |list|
    ensures Slot(list, i, v6) == if Open(list, i, v6) then Some(i) else Slot(list, i + 1, v6)
    ensures Slot(list, i + 1, v6) != Some(i)
  {
    SlotIsLeast(list, i + 1, v6);
  }

  lemma Finish(list: seq<Rule>)
    ensures list[..|list|] == list
    ensures forall k: nat :: k <= |list| ==> list[k..|list|] == list[k..]
  {
  }

  // ---- what calls keep ----

  // Where the list changes, only the identity of the command comes or goes.
  lemma {:induction false} KeysAfter(list: seq<Rule>, nr: Rule, pos: nat, remove: bool, key: TupleKey)
    requires Distinct(list)
    ensures var r := SetRule(list, nr, pos, remove);
            && Distinct(r.0)
            && (HasKey(r.0, key) <==> if remove && r.1 == Deleted then HasKey(list, key) && key != KeyOf(nr)
                                      else if remove then HasKey(list, key)
                                      else HasKey(list, key) || key == KeyOf(nr))
  {
    hide Match, KeyOf, Slot;
    var m := Find(list, KeyOf(nr));
    var r := SetRule(list, nr, pos, remove);
    match r.1 {
      case Deleted => WithoutKeys(list, m.value, key);
      case Inserted =>
        SlotIsLeast(list, pos - 1, nr.v6);
        WithKeys(list, Slot(list, pos - 1, nr.v6).value, nr, key);
      case Added =>
        WithKeys(list, |list|, nr, key);
        assert list[..|list|] + [nr] + list[|list|..] == list + [nr];
      case Updated => ReplacedKeys(list, m.value, nr, key);
      case _ =>
    }
  }

  lemma WithoutKeys(list: seq<Rule>, m: nat, key: TupleKey)
    requires Distinct(list) && m < |list|
    ensures var r := list[..m] + list[m + 1..];
            Distinct(r) && (HasKey(r, key) <==> HasKey(list, key) && key != KeyOf(list[m]))
  {
    hide KeyOf;
    var r := list[..m] + list[m + 1..];
    assert forall i :: 0 <= i < |r| ==> r[i] == list[if i < m then i else i + 1];
    if HasKey(list, key) && key != KeyOf(list[m]) {
      var i :| 0 <= i < |list| && KeyOf(list[i]) == key;
      assert r[if i < m then i else i - 1] == list[i];
    }
  }

  lemma WithKeys(list: seq<Rule>, k: nat, nr: Rule, key: TupleKey)
    requires Distinct(list) && k <= |list| && !HasKey(list, KeyOf(nr))
    ensures var r := list[..k] + [nr] + list[k..];
            Distinct(r) && (HasKey(r, key) <==> HasKey(list, key) || key == KeyOf(nr))
  {
    hide KeyOf;
    var r := list[..k] + [nr] + list[k..];
    assert r[k] == nr;
    assert forall i :: 0 <= i < |r| && i != k ==> r[i] == list[if i < k then i else i - 1];
    if HasKey(list, key) {
      var i :| 0 <= i < |list| && KeyOf(list[i]) == key;
      assert r[if i < k then i else i + 1] == list[i];
    }
  }

  lemma ReplacedKeys(list: seq<Rule>, m: nat, nr: Rule, key: TupleKey)
    requires Distinct(list) && m < |list| && KeyOf(list[m]) == KeyOf(nr)
    ensures Distinct(list[m := nr]) && (HasKey(list[m := nr], key) <==> HasKey(list, key))
  {
    hide KeyOf;
    var r := list[m := nr];
    assert forall i :: 0 <= i < |r| ==> KeyOf(r[i]) == KeyOf(list[i]);
    if HasKey(list, key) {
      var i :| 0 <= i < |list| && KeyOf(list[i]) == key;
      assert KeyOf(r[i]) == key;
    }
    if HasKey(r, key) {
      var i :| 0 <= i < |r| && KeyOf(r[i]) == key;
      assert KeyOf(list[i]) == key;
    }
  }

  // A command as it reaches one family list.
  datatype Command = Command(rule: Rule, pos: nat, remove: bool)

  function Run(list: seq<Rule>, commands: seq<Command>): seq<Rule>
  {
    if commands == [] then list
    else
      var prior, c := Run(list, commands[..|commands| - 1]), commands[|commands| - 1];
      if c.pos > |prior| || (c.remove && c.pos > 0) then prior
      else SetRule(prior, c.rule, c.pos, c.remove).0
  }

  // Identities stay pairwise distinct over every run of commands.
  lemma {:induction false} RunKeepsDistinct(list: seq<Rule>, commands: seq<Command>)
    requires Distinct(list)
    ensures Distinct(Run(list, commands))
  {
    if commands != [] {
      var c := commands[|commands| - 1];
      RunKeepsDistinct(list, commands[..|commands| - 1]);
      KeysAfter(Run(list, commands[..|commands| - 1]), c.rule, c.pos, c.remove, KeyOf(c.rule));
    }
  }

  // An accepted insert lands at the least index from pos - 1 on that splits
  // no app group; without such an index the rule goes to the end.
  lemma {:induction false} InsertPosition(list: seq<Rule>, nr: Rule, pos: nat) returns (k: nat)
    requires 0 < pos <= |list| && Find(list, KeyOf(nr)).None?
    ensures pos - 1 <= k <= |list| && SetRule(list, nr, pos, false).0 == list[..k] + [nr] + list[k..]
    ensures k < |list| ==> Open(list, k, nr.v6)
    ensures forall j :: pos - 1 <= j < k ==> !Open(list, j, nr.v6)
  {
    hide KeyOf, Open, Find;
    SlotIsLeast(list, pos - 1, nr.v6);
    var s := Slot(list, pos - 1, nr.v6);
    k := if s.Some? then s.value else |list|;
    assert list[..|list|] + [nr] + list[|list|..] == list + [nr];
  }

  // Neighbours of one app group are still neighbours after any insert.
  lemma {:induction false} GroupsStayWhole(list: seq<Rule>, nr: Rule, pos: nat, i: nat)
    requires pos <= |list| && Find(list, KeyOf(nr)).None? && 0 < i < |list| && Glued(list[i - 1], list[i], nr.v6)
    ensures var r := SetRule(list, nr, pos, false).0;
            exists j :: 0 < j < |r| && r[j - 1] == list[i - 1] && r[j] == list[i]
  {
    hide KeyOf, Glued, Find, Slot, Open;
    if pos == 0 {
      var r := SetRule(list, nr, pos, false).0;
      assert r[i - 1] == list[i - 1] && r[i] == list[i];
    } else {
      hide SetRule;
      var k := InsertPosition(list, nr, pos);
      NotOpen(list, i, nr.v6);
      AroundInsert(list, nr, k, i);
    }
  }

  lemma NotOpen(list: seq<Rule>, i: nat, v6: bool)
    requires 0 < i < |list| && Glued(list[i - 1], list[i], v6)
    ensures !Open(list, i, v6)
  {
  }

  lemma AroundInsert(list: seq<Rule>, nr: Rule, k: nat, i: nat)
    requires k <= |list| && 0 < i < |list| && i != k
    ensures var r := list[..k] + [nr] + list[k..];
            exists j :: 0 < j < |r| && r[j - 1] == list[i - 1] && r[j] == list[i]
  {
    var r := list[..k] + [nr] + list[k..];
    var j := if i < k then i else i + 1;
    assert r[j - 1] == list[i - 1] && r[j] == list[i];
  }

  // An update changes one rule and moves none.
  lemma {:induction false} UpdateKeepsPositions(list: seq<Rule>, nr: Rule, pos: nat, i: nat)
    requires SetRule(list, nr, pos, false).1 == Updated && i < |list|
    ensures var r := SetRule(list, nr, pos, false).0;
            |r| == |list| && KeyOf(r[i]) == KeyOf(list[i]) && (KeyOf(list[i]) != KeyOf(nr) ==> r[i] == list[i])
            && (Find(list, KeyOf(nr)) == Some(i) ==> r[i] == nr)
  {
    hide KeyOf, Slot;
  }

  // Adding or inserting a new rule and deleting it again restores the list.
  lemma {:induction false} AddThenDelete(list: seq<Rule>, nr: Rule, pos: nat)
    requires Distinct(list) && pos <= |list| && !HasKey(list, KeyOf(nr))
    ensures SetRule(SetRule(list, nr, pos, false).0, nr, 0, true) == (list, Deleted)
  {
    hide KeyOf, Slot, Open, HasKey, Distinct, Find;
    assert Find(list, KeyOf(nr)).None?;
    if pos > 0 {
      var k := InsertPosition(list, nr, pos);
      DeleteInserted(list, k, nr);
    } else {
      assert list[..|list|] + [nr] + list[|list|..] == list + [nr];
      DeleteInserted(list, |list|, nr);
    }
  }

  lemma DeleteInserted(list: seq<Rule>, k: nat, nr: Rule)
    requires k <= |list| && !HasKey(list, KeyOf(nr))
    ensures SetRule(list[..k] + [nr] + list[k..], nr, 0, true) == (list, Deleted)
  {
    hide KeyOf, Slot;
    var r := list[..k] + [nr] + list[k..];
    assert r[k] == nr && r[..k] == list[..k] && r[k + 1..] == list[k..];
    assert HasKey(r, KeyOf(nr));
    forall i | 0 <= i < |r| && i != k ensures KeyOf(r[i]) != KeyOf(nr) {
      assert r[i] == list[if i < k then i else i - 1];
    }
    assert Find(r, KeyOf(nr)) == Some(k);
    assert list[..k] + list[k..] == list;
  }

  // ---- deleting an app rule ----

  // One side of an app tuple: the app name, or the ports when it has none.
  datatype Side = AppSide(name: string) | PortSide(ports: seq<PortRange>)

  datatype AppTuple = NoApp
                    | AppTuple(dst: Side, daddr: Addr, src: Side, saddr: Addr, ifaceIn: Name, ifaceOut: Name,
                      direction: Direction)

  function CanonWild(ip: Addr, v6: bool): Addr
  {
    if ip.Any() then Cidr(Net(Zeros(if v6 then 16 else 4), 0)) else ip
  }

  function AppTupleOf(r: Rule): AppTuple
  {
    if !r.IsApp() then NoApp
    else
      AppTuple(if r.dapp != "" then AppSide(r.dapp) else PortSide(PortKeys(r.dst.ports)), CanonWild(r.dst.ip, r.v6),
               if r.sapp != "" then AppSide(r.sapp) else PortSide(PortKeys(r.src.ports)), CanonWild(r.src.ip, r.v6),
               r.ifaceIn, r.ifaceOut, if r.ifaceIn == [] && r.ifaceOut == [] then r.direction else NoDirection)
  }

  // The stored rules of the command's app tuple, with its action and log.
  function Targets(list: seq<Rule>, nr: Rule): seq<Rule>
  {
    if list == [] then []
    else
      (if AppTupleOf(list[0]) == AppTupleOf(nr) then [list[0].(action := nr.action, log := nr.log)] else [])
      + Targets(list[1..], nr)
  }

  // What deleting an app rule leaves: its rules go one by one, up to the
  // first whose action or log is not the command's.
  function AppDeleted(list: seq<Rule>, nr: Rule): (seq<Rule>, bool)
  {
    if list == [] then ([], true)
    else if AppTupleOf(list[0]) != AppTupleOf(nr) then
      var rest := AppDeleted(list[1..], nr);
      ([list[0]] + rest.0, rest.1)
    else if list[0].action == nr.action && list[0].log == nr.log then AppDeleted(list[1..], nr)
    else (list, false)
  }

  method CollectTargets(list: seq<Rule>, nr: Rule) returns (targets: seq<Rule>)
    ensures targets == Targets(list, nr)
  {
    hide AppTupleOf;
    targets := [];
    for i := 0 to |list|
      invariant targets + Targets(list[i..], nr) == Targets(list, nr)
    {
      assert list[i..][0] == list[i] && list[i..][1..] == list[i + 1..];
      if AppTupleOf(list[i]) == AppTupleOf(nr) {
        var t := list[i].(action := nr.action, log := nr.log);
        assert targets + ([t] + Targets(list[i + 1..], nr)) == (targets + [t]) + Targets(list[i + 1..], nr);
        targets := targets + [t];
      } else {
        assert [] + Targets(list[i + 1..], nr) == Targets(list[i + 1..], nr);
      }
    }
    assert targets + [] == targets;
  }

  // One family's half of a command. The new list is stored even when a
  // later target is not found.
  method ApplyHalf(list: seq<Rule>, rule: Rule, pos: int, v6: bool, remove: bool)
      returns (r: Result<(seq<Rule>, Change)>)
    requires Distinct(list)
    ensures r.Err? <==> pos < 0 || pos > |list| || (pos > 0 && remove)
    ensures r.Ok? && !(remove && rule.IsApp()) ==> r.value == SetRule(list, rule.(v6 := v6), pos, remove)
    ensures r.Ok? && remove && rule.IsApp() ==>
              var gone := AppDeleted(list, rule.(v6 := v6));
              && r.value.0 == gone.0
              && (r.value.1 == Deleted <==> gone.1 && Targets(list, rule.(v6 := v6)) != [])
              && (r.value.1 != Deleted ==> r.value.1 == NotFound)
  {
    hide SetRule, AppTupleOf, Targets, AppDeleted;
    if pos < 0 || pos > |list| { return Err; }
    if pos > 0 && remove { return Err; }
    var nr := rule.(v6 := v6);
    if !(remove && nr.IsApp()) {
      var out, oc := SetRuleEngine(list, nr, pos, remove);
      return Ok((out, oc));
    }
    var out, oc := AppDelete(list, nr);
    return Ok((out, oc));
  }

  method AppDelete(list: seq<Rule>, nr: Rule) returns (out: seq<Rule>, oc: Change)
    requires Distinct(list)
    ensures out == AppDeleted(list, nr).0
    ensures oc == if AppDeleted(list, nr).1 && Targets(list, nr) != [] then Deleted else NotFound
  {
    hide SetRule, AppTupleOf, Distinct;
    var targets := CollectTargets(list, nr);
    if targets == [] {
      NoTargets(list, nr);
      return list, NotFound;
    }
    out := list;
    // done holds the rules kept so far, left the part not yet searched.
    ghost var done, left: seq<Rule> := [], list;
    assert list == [] + list && [] + AppDeleted(list, nr).0 == AppDeleted(list, nr).0;
    for i := 0 to |targets|
      invariant out == done + left && Distinct(out)
      invariant targets[i..] == Targets(left, nr)
      invariant done + AppDeleted(left, nr).0 == AppDeleted(list, nr).0
                && AppDeleted(left, nr).1 == AppDeleted(list, nr).1
    {
      ghost var x, kept, after := TargetStep(out, done, left, targets[i..], nr);
      assert targets[i] == targets[i..][0] && targets[i..][1..] == targets[i + 1..];
      var current := out;
      out, oc := SetRuleEngine(current, targets[i], 0, true);
      if oc == NotFound || oc == SkipAdd || oc == SkipInsert {
        return out, oc;
      }
      done, left := kept, after;
    }
    NoTargets(left, nr);
    return out, Deleted;
  }

  // One target: it is deleted, or the search ends there.
  lemma TargetStep(current: seq<Rule>, done: seq<Rule>, left: seq<Rule>, targets: seq<Rule>, nr: Rule)
    returns (x: Rule, kept: seq<Rule>, after: seq<Rule>)
    requires current == done + left && Distinct(current) && targets == Targets(left, nr) && targets != []
    ensures targets[1..] == Targets(after, nr)
    ensures var r := SetRule(current, targets[0], 0, true);
            && Distinct(r.0)
            && (r.1 == Deleted ==> && r.0 == kept + after
                                   && done + AppDeleted(left, nr).0 == kept + AppDeleted(after, nr).0
                                   && AppDeleted(left, nr).1 == AppDeleted(after, nr).1)
            && (r.1 != Deleted ==>
            && r.1 == NotFound && r.0 == done + AppDeleted(left, nr).0 && !AppDeleted(left, nr).1)
  {
    hide SetRule, AppTupleOf, Distinct, KeyOf;
    var skip, rest := NextTarget(left, nr);
    x, kept, after := rest[0], done + skip, rest[1..];
    assert targets[0] == x.(action := nr.action, log := nr.log) && targets[1..] == Targets(after, nr);
    assert current == kept + ([x] + after);
    DeleteTarget(kept, x, after, nr);
    KeysAfter(current, targets[0], 0, true, KeyOf(x));
    assert done + (skip + AppDeleted(rest, nr).0) == kept + AppDeleted(rest, nr).0;
    assert kept + ([x] + after) == kept + rest;
  }

  lemma {:induction false} NoTargets(list: seq<Rule>, nr: Rule)
    requires Targets(list, nr) == []
    ensures AppDeleted(list, nr) == (list, true)
  {
    hide AppTupleOf;
    if list != [] {
      assert list == [list[0]] + list[1..];
      NoTargets(list[1..], nr);
    }
  }

  // The rules before the next target, and the target with its followers.
  lemma {:induction false} NextTarget(left: seq<Rule>, nr: Rule) returns (skip: seq<Rule>, rest: seq<Rule>)
    requires Targets(left, nr) != []
    ensures left == skip + rest && rest != [] && AppTupleOf(rest[0]) == AppTupleOf(nr)
    ensures forall x :: x in skip ==> AppTupleOf(x) != AppTupleOf(nr)
    ensures Targets(left, nr) == [rest[0].(action := nr.action, log := nr.log)] + Targets(rest[1..], nr)
    ensures AppDeleted(left, nr) == (skip + AppDeleted(rest, nr).0, AppDeleted(rest, nr).1)
  {
    hide AppTupleOf;
    if AppTupleOf(left[0]) == AppTupleOf(nr) {
      skip, rest := [], left;
      assert left == [] + left && AppDeleted(left, nr).0 == [] + AppDeleted(left, nr).0;
    } else {
      assert Targets(left, nr) == Targets(left[1..], nr);
      var s, r := NextTarget(left[1..], nr);
      skip, rest := [left[0]] + s, r;
      assert [left[0]] + (s + AppDeleted(r, nr).0) == skip + AppDeleted(r, nr).0;
      assert left == [left[0]] + left[1..] == skip + rest;
    }
  }

  // Removing one stored rule by its copy with the command's action and log.
  lemma DeleteTarget(before: seq<Rule>, x: Rule, after: seq<Rule>, nr: Rule)
    requires Distinct(before + ([x] + after))
    ensures var t := x.(action := nr.action, log := nr.log);
            SetRule(before + ([x] + after), t, 0, true) ==
            if x.action == nr.action
                && x.log == nr.log then (before + after, Deleted) else (before + ([x] + after), NotFound)
  {
    var list := before + ([x] + after);
    var t := x.(action := nr.action, log := nr.log);
    assert KeyOf(t) == KeyOf(x);
    assert list[|before|] == x && HasKey(list, KeyOf(t));
    assert Find(list, KeyOf(t)) == Some(|before|);
    assert list[..|before|] == before && list[|before| + 1..] == after;
  }

  // Deleting an app rule removes exactly its group if and only if every
  // rule of the group has the command's action and log.
  lemma {:induction false} AppDeleteIff(list: seq<Rule>, nr: Rule)
    ensures AppDeleted(list, nr).1 <==>
            forall r :: r in list && AppTupleOf(r) == AppTupleOf(nr) ==> r.action == nr.action && r.log == nr.log
    ensures AppDeleted(list, nr).1 ==>
            forall r :: r in AppDeleted(list, nr).0 <==> r in list && AppTupleOf(r) != AppTupleOf(nr)
  {
    hide AppTupleOf;
    if list != [] {
      AppDeleteIff(list[1..], nr);
      assert list == [list[0]] + list[1..];
    }
  }
}
