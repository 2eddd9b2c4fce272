/** What list commands and merges do, told on the fields of the rules. */
module ListOutcomes {
  import opened Bytes
  import opened AddressSets
  import opened Outcomes
  import opened Rules
  import RuleList
  import RuleMerge

  // ---- when two rules are one ----

  // "any" and no protocol print alike.
  predicate SameProto(p: Proto, q: Proto) { p == q || (p in {NoProto, AnyProto} && q in {NoProto, AnyProto}) }

  predicate SamePort(p: PortRange, q: PortRange) { p.lo == q.lo && p.hi == q.hi && SameProto(p.proto, q.proto) }

  predicate SamePorts(p: seq<PortRange>, q: seq<PortRange>)
  {
    |p| == |q| && forall i :: 0 <= i < |p| ==> SamePort(p[i], q[i])
  }

  predicate SameEnd(a: AddrSpec, b: AddrSpec) { a.ip == b.ip && a.setName == b.setName && SamePorts(a.ports, b.ports) }

  // A route rule points where its route direction says, if it has one.
  function Towards(r: Rule): Direction
  {
    if r.direction != Routed || r.routeDir == NoDirection then r.direction else r.routeDir
  }

  predicate SameIdentity(a: Rule, b: Rule)
  {
    && (a.direction == Routed <==> b.direction == Routed) && Towards(a) == Towards(b)
    && a.proto == b.proto && a.icmpType == b.icmpType
    && a.ifaceIn == b.ifaceIn && a.ifaceOut == b.ifaceOut && a.v6 == b.v6
    && SameEnd(a.src, b.src) && SameEnd(a.dst, b.dst)
    && a.dapp == b.dapp && a.sapp == b.sapp
  }

  lemma PortsMean(p: seq<PortRange>, q: seq<PortRange>)
    ensures PortKeys(p) == PortKeys(q) <==> SamePorts(p, q)
  {
    if PortKeys(p) == PortKeys(q) {
      forall i | 0 <= i < |p| ensures SamePort(p[i], q[i]) { assert PortKeys(p)[i] == PortKeys(q)[i]; }
    }
    if SamePorts(p, q) {
      forall i | 0 <= i < |p| ensures PortKeys(p)[i] == PortKeys(q)[i] { assert SamePort(p[i], q[i]); }
    }
  }

  // Every field but ID, action, log, comment, expiry and the disabled flag.
  lemma {:induction false} IdentityMeans(a: Rule, b: Rule)
    ensures KeyOf(a) == KeyOf(b) <==> SameIdentity(a, b)
  {
    hide SamePorts, PortKeys;
    PortsMean(a.src.ports, b.src.ports);
    PortsMean(a.dst.ports, b.dst.ports);
  }

  lemma DistinctMeans(list: seq<Rule>)
    ensures RuleList.Distinct(list) <==> forall i, j :: 0 <= i < j < |list| ==> !SameIdentity(list[i], list[j])
  {
    hide KeyOf, SameIdentity;
    forall i, j | 0 <= i < j < |list| ensures KeyOf(list[i]) == KeyOf(list[j]) <==> SameIdentity(list[i], list[j]) {
      IdentityMeans(list[i], list[j]);
    }
  }

  // ---- app groups ----

  predicate WholeFamily(a: Addr, v6: bool) { a.Any() || a == Cidr(Net(Zeros(if v6 then 16 else 4), 0)) }

  predicate SamePlace(a: AddrSpec, b: AddrSpec, v6: bool)
  {
    && a.setName == b.setName
    && (a.setName == "" ==> a.ip == b.ip || (WholeFamily(a.ip, v6) && WholeFamily(b.ip, v6)))
  }

  // Neighbours of one application of a profile: same applications, same
  // places.
  predicate SameApplication(a: Rule, b: Rule, v6: bool)
  {
    && (a.dapp != "" || a.sapp != "") && a.dapp == b.dapp && a.sapp == b.sapp
    && SamePlace(a.src, b.src, v6) && SamePlace(a.dst, b.dst, v6)
  }

  lemma GluedMeans(a: Rule, b: Rule, v6: bool)
    ensures RuleList.Glued(a, b, v6) <==> SameApplication(a, b, v6)
  {
  }

  // An insert at this position would not split a group.
  predicate Splits(list: seq<Rule>, k: nat, v6: bool)
  {
    0 < k < |list| && SameApplication(list[k - 1], list[k], v6)
  }

  ghost predicate Inserts(list: seq<Rule>, nr: Rule, pos: nat)
  {
    pos > 0 && exists k :: pos - 1 <= k < |list| && !Splits(list, k, nr.v6)
  }

  lemma SlotMeans(list: seq<Rule>, nr: Rule, pos: nat)
    requires pos > 0
    ensures RuleList.Slot(list, pos - 1, nr.v6).Some? <==> Inserts(list, nr, pos)
    ensures RuleList.Slot(list, pos - 1, nr.v6).Some? ==>
              var k := RuleList.Slot(list, pos - 1, nr.v6).value;
              && pos - 1 <= k < |list| && !Splits(list, k, nr.v6)
              && forall j :: pos - 1 <= j < k ==> Splits(list, j, nr.v6)
  {
    hide SameApplication, RuleList.Glued;
    RuleList.SlotIsLeast(list, pos - 1, nr.v6);
    forall k | 0 <= k < |list| ensures RuleList.Open(list, k, nr.v6) <==> !Splits(list, k, nr.v6) {
      if k > 0 { GluedMeans(list[k - 1], list[k], nr.v6); }
    }
    var s := RuleList.Slot(list, pos - 1, nr.v6);
    if s.Some? { assert pos - 1 <= s.value < |list| && !Splits(list, s.value, nr.v6); }
  }

  // ---- what one command does ----

  predicate SameEffect(a: Rule, b: Rule) { a.action == b.action && a.log == b.log && a.comment == b.comment }

  // The stored rule a deleting command means.
  predicate Names(nr: Rule, stored: Rule)
  {
    nr.action == stored.action && nr.log == stored.log && (nr.comment == "" || nr.comment == stored.comment)
  }

  ghost predicate Stored(list: seq<Rule>, nr: Rule) { exists i :: 0 <= i < |list| && SameIdentity(list[i], nr) }

  lemma FindMeans(list: seq<Rule>, nr: Rule)
    requires RuleList.Distinct(list)
    ensures forall i :: 0 <= i < |list| ==> (SameIdentity(list[i], nr) <==> RuleList.Find(list, KeyOf(nr)) == Some(i))
    ensures Stored(list, nr) <==> RuleList.Find(list, KeyOf(nr)).Some?
  {
    hide KeyOf, SameIdentity;
    var m := RuleList.Find(list, KeyOf(nr));
    forall i | 0 <= i < |list| ensures SameIdentity(list[i], nr) <==> m == Some(i) {
      IdentityMeans(list[i], nr);
      if KeyOf(list[i]) == KeyOf(nr) { assert RuleList.HasKey(list, KeyOf(nr)); }
    }
  }

  // A rule of the command's identity is stored at i.
  lemma {:induction false} OnStored(list: seq<Rule>, nr: Rule, pos: nat, remove: bool, i: nat)
    requires RuleList.Distinct(list) && i < |list| && SameIdentity(list[i], nr)
    ensures RuleList.SetRule(list, nr, pos, remove) ==
            if remove then
              if Names(nr, list[i]) then (list[..i] + list[i + 1..], RuleList.Deleted) else (list, RuleList.NotFound)
            else if Inserts(list, nr, pos) then (list, RuleList.SkipInsert)
            else if SameEffect(list[i], nr) then (list, RuleList.SkipAdd)
            else (list[i := nr], RuleList.Updated)
  {
    hide KeyOf, SameIdentity, RuleList.Slot, RuleList.Find, Inserts;
    FindMeans(list, nr);
    if pos > 0 { SlotMeans(list, nr, pos); } else { NoInsert(list, nr); }
  }

  lemma NoInsert(list: seq<Rule>, nr: Rule)
    ensures !Inserts(list, nr, 0)
  {
  }

  // No rule of the command's identity is stored.
  lemma {:induction false} OnNew(list: seq<Rule>, nr: Rule, pos: nat, remove: bool)
    requires RuleList.Distinct(list) && !Stored(list, nr)
    ensures var r := RuleList.SetRule(list, nr, pos, remove);
            if remove then r == (list, RuleList.NotFound)
            else if Inserts(list, nr, pos) then
              && r.1 == RuleList.Inserted
              && exists k: nat :: LandsAt(list, nr, pos, k) && r.0 == list[..k] + [nr] + list[k..]
            else r == (list + [nr], RuleList.Added)
  {
    hide KeyOf, SameIdentity, RuleList.Slot, RuleList.Find, Inserts, Splits;
    FindMeans(list, nr);
    if pos > 0 { SlotMeans(list, nr, pos); } else { NoInsert(list, nr); }
    if !remove && Inserts(list, nr, pos) {
      var k := RuleList.Slot(list, pos - 1, nr.v6).value;
      assert LandsAt(list, nr, pos, k);
    }
  }

  // The least place from the one asked for on that splits no group.
  ghost predicate LandsAt(list: seq<Rule>, nr: Rule, pos: nat, k: nat)
  {
    && 0 <= pos - 1 <= k < |list| && !Splits(list, k, nr.v6)
    && forall j :: pos - 1 <= j < k ==> Splits(list, j, nr.v6)
  }

  ghost predicate HasEffect(list: seq<Rule>, nr: Rule)
  {
    exists i :: 0 <= i < |list| && SameIdentity(list[i], nr) && SameEffect(list[i], nr)
  }

  // A command that neither removes nor inserts takes hold: the one rule of
  // its identity then has its action, log and comment, and the answer tells
  // what was stored before.
  lemma {:induction false} AddTakesHold(list: seq<Rule>, nr: Rule, pos: nat)
    requires RuleList.Distinct(list) && !Inserts(list, nr, pos)
    ensures var r := RuleList.SetRule(list, nr, pos, false);
            && HasEffect(r.0, nr) && (forall j :: 0 <= j < |r.0| && SameIdentity(r.0[j], nr) ==> SameEffect(r.0[j], nr))
            && (r.1 == RuleList.SkipAdd <==> HasEffect(list, nr))
            && (r.1 == RuleList.Updated <==> Stored(list, nr) && !HasEffect(list, nr))
            && (r.1 == RuleList.Added <==> !Stored(list, nr))
            && |list| <= |r.0|
            && forall j :: 0 <= j < |list| && !SameIdentity(list[j], nr) ==> r.0[j] == list[j]
  {
    hide KeyOf, SameIdentity, RuleList.SetRule, Inserts, RuleList.Distinct;
    SelfIdentity(nr);
    var r := RuleList.SetRule(list, nr, pos, false);
    if Stored(list, nr) {
      var i :| 0 <= i < |list| && SameIdentity(list[i], nr);
      OnStored(list, nr, pos, false, i);
      FindMeans(list, nr);
      assert SameIdentity(r.0[i], nr) && SameEffect(r.0[i], nr);
    } else {
      OnNew(list, nr, pos, false);
      assert r.0[|list|] == nr;
    }
  }

  lemma SelfIdentity(r: Rule)
    ensures SameIdentity(r, r)
  {
  }

  // A deleting command takes away the rule it names or nothing.
  lemma {:induction false} DeleteTakesHold(list: seq<Rule>, nr: Rule)
    requires RuleList.Distinct(list)
    ensures var r := RuleList.SetRule(list, nr, 0, true);
            if exists i :: 0 <= i < |list| && SameIdentity(list[i], nr) && Names(nr, list[i]) then
              && r.1 == RuleList.Deleted && |r.0| == |list| - 1 && !Stored(r.0, nr)
              && forall x :: x in list && !SameIdentity(x, nr) ==> x in r.0
            else r == (list, RuleList.NotFound)
  {
    hide KeyOf, SameIdentity, RuleList.SetRule, RuleList.Distinct, RuleList.Find, Names, Inserts;
    if Stored(list, nr) {
      var i :| 0 <= i < |list| && SameIdentity(list[i], nr);
      OnStored(list, nr, 0, true, i);
      FindMeans(list, nr);
      TakenOut(list, nr, i);
    } else {
      OnNew(list, nr, 0, true);
    }
  }

  lemma TakenOut(list: seq<Rule>, nr: Rule, i: nat)
    requires i < |list| && forall j :: 0 <= j < |list| ==> (SameIdentity(list[j], nr) <==> j == i)
    ensures var out := list[..i] + list[i + 1..];
            && |out| == |list| - 1 && !Stored(out, nr)
            && forall x :: x in list && !SameIdentity(x, nr) ==> x in out
  {
    hide SameIdentity;
    var out := list[..i] + list[i + 1..];
    assert forall j :: 0 <= j < |out| ==> out[j] == list[if j < i then j else j + 1];
    forall x | x in list && !SameIdentity(x, nr) ensures x in out {
      var j :| 0 <= j < |list| && list[j] == x;
      assert out[if j < i then j else j - 1] == x;
    }
  }

  // ---- deleting an application ----

  function FamilyNet(v6: bool): Addr { Cidr(Net(Zeros(if v6 then 16 else 4), 0)) }

  // A wildcard is the whole family of its rule.
  predicate SameHosts(a: Addr, v6: bool, b: Addr, w6: bool)
  {
    || (!a.Any() && a == b) || (a.Any() && b.Any() && v6 == w6)
    || (a.Any() && b == FamilyNet(v6)) || (b.Any() && a == FamilyNet(w6))
  }

  // Rules of one application command: same application or ports and same
  // hosts at either end, same interfaces, and without those the same
  // direction.
  predicate SameAppCommand(a: Rule, b: Rule)
  {
    && (a.dapp != "" || a.sapp != "") && a.dapp == b.dapp && a.sapp == b.sapp
    && (a.dapp == "" ==> SamePorts(a.dst.ports, b.dst.ports)) && (a.sapp == "" ==> SamePorts(a.src.ports, b.src.ports))
    && SameHosts(a.dst.ip, a.v6, b.dst.ip, b.v6) && SameHosts(a.src.ip, a.v6, b.src.ip, b.v6)
    && a.ifaceIn == b.ifaceIn && a.ifaceOut == b.ifaceOut
    && (a.ifaceIn == [] && a.ifaceOut == [] ==> a.direction == b.direction)
  }

  lemma AppTupleMeans(a: Rule, b: Rule)
    requires b.dapp != "" || b.sapp != ""
    ensures RuleList.AppTupleOf(a) == RuleList.AppTupleOf(b) <==> SameAppCommand(a, b)
  {
    hide SamePorts, PortKeys;
    PortsMean(a.src.ports, b.src.ports);
    PortsMean(a.dst.ports, b.dst.ports);
    HostsMean(a.src.ip, a.v6, b.src.ip, b.v6);
    HostsMean(a.dst.ip, a.v6, b.dst.ip, b.v6);
  }

  lemma HostsMean(a: Addr, v6: bool, b: Addr, w6: bool)
    ensures RuleList.CanonWild(a, v6) == RuleList.CanonWild(b, w6) <==> SameHosts(a, v6, b, w6)
  {
    assert |Zeros(16)| == 16 && |Zeros(4)| == 4;
  }

  // Deleting an application takes its rules away exactly when all of them
  // have the command's action and log, and no other rule.
  lemma {:induction false} AppDeleteTakesHold(list: seq<Rule>, nr: Rule)
    requires nr.dapp != "" || nr.sapp != ""
    ensures var d := RuleList.AppDeleted(list, nr);
            && (d.1 <==>
                forall r :: r in list && SameAppCommand(r, nr) ==> r.action == nr.action && r.log == nr.log)
            && (d.1 ==> forall r :: r in d.0 <==> r in list && !SameAppCommand(r, nr))
  {
    hide SameAppCommand, RuleList.AppTupleOf, RuleList.AppDeleted;
    RuleList.AppDeleteIff(list, nr);
    forall r | r in list ensures RuleList.AppTupleOf(r) == RuleList.AppTupleOf(nr) <==> SameAppCommand(r, nr) {
      AppTupleMeans(r, nr);
    }
  }

  // ---- merging ----

  // The stored rule with what the import says.
  predicate Merged(kept: Rule, nr: Rule, r: Rule)
  {
    && r.id == kept.id && r.disabled == kept.disabled && r.expiresAt == kept.expiresAt
    && SameEffect(r, nr) && SameIdentity(r, nr)
  }

  // One imported rule on a list with distinct identities.
  lemma {:induction false} MergesOne(dst: seq<Rule>, nr: Rule, spare: string)
    requires RuleList.Distinct(dst)
    ensures var r := RuleMerge.MergeOne(dst, nr, spare);
            && (forall i :: 0 <= i < |dst| && !SameIdentity(dst[i], nr) ==> i < |r| && r[i] == dst[i])
            && (forall i :: 0 <= i < |dst| && SameIdentity(dst[i], nr) ==> i < |r| && Merged(dst[i], nr, r[i]))
            && |r| == |dst| + (if Stored(dst, nr) then 0 else 1)
            && (!Stored(dst, nr) ==>
                  var x := r[|dst|];
                  && x == nr.(id := x.id) && x.id in {nr.id, spare}
                  && (x.id == nr.id || nr.id == "" || exists i :: 0 <= i < |dst| && dst[i].id == nr.id))
  {
    hide KeyOf, SameIdentity, RuleList.Find, RuleList.Distinct;
    FindMeans(dst, nr);
    SelfIdentity(nr);
    var m := RuleList.Find(dst, KeyOf(nr));
    if m.Some? {
      IdentityMeans(nr, dst[m.value]);
      IdentityMeans(dst[m.value], nr);
      IdentityIgnores(nr, RuleMerge.Replaced(dst[m.value], nr));
      assert RuleMerge.Replaced(dst[m.value], nr).src == nr.src;
    }
  }

  lemma IdentityIgnores(a: Rule, b: Rule)
    requires b == a.(id := b.id, disabled := b.disabled, expiresAt := b.expiresAt)
    ensures SameIdentity(b, a)
  {
  }

  // Merged with the imported rule of its identity, or unchanged.
  ghost predicate Kept(was: Rule, src: seq<Rule>, r: Rule)
  {
    if Stored(src, was) then exists j :: 0 <= j < |src| && SameIdentity(src[j], was) && Merged(was, src[j], r)
    else r == was
  }

  lemma IdentityIsKey()
    ensures forall a, b :: SameIdentity(a, b) <==> KeyOf(a) == KeyOf(b)
  {
    hide KeyOf, SameIdentity;
    forall a, b ensures SameIdentity(a, b) <==> KeyOf(a) == KeyOf(b) { IdentityMeans(a, b); }
  }

  // After a merge every imported rule has its effect, and a stored rule of
  // its identity has kept its place, ID, expiry and disabled flag; every
  // other stored rule is as it was.
  lemma {:induction false} MergeTakesHold(dst: seq<Rule>, src: seq<Rule>, newID: nat -> string)
    requires RuleList.Distinct(dst) && RuleList.Distinct(src)
    ensures var r := RuleMerge.Merge(dst, src, newID);
            && |dst| <= |r|
            && (forall j :: 0 <= j < |src| ==> HasEffect(r, src[j]))
            && (forall i :: 0 <= i < |dst| ==> Kept(dst[i], src, r[i]))
  {
    hide KeyOf, SameIdentity, SameEffect, RuleList.Distinct, RuleMerge.MergeOne, HasEffect, Kept, Merged, Stored;
    if src == [] {
      forall i | 0 <= i < |dst| ensures Kept(dst[i], src, dst[i]) { NothingMerged(dst[i]); }
    } else {
      var n := |src| - 1;
      var prior := RuleMerge.Merge(dst, src[..n], newID);
      PrefixDistinct(src);
      MergeTakesHold(dst, src[..n], newID);
      RuleMerge.MergeKeys(dst, src[..n], newID, KeyOf(src[n]));
      MergesOne(prior, src[n], newID(n));
      var r := RuleMerge.Merge(dst, src, newID);
      forall j | 0 <= j < |src| ensures HasEffect(r, src[j]) {
        if j < n {
          assert HasEffect(prior, src[..n][j]);
          EffectStays(prior, r, src, j);
        } else {
          EffectComes(prior, r, src[n]);
        }
      }
      forall i | 0 <= i < |dst| ensures Kept(dst[i], src, r[i]) { KeptNext(dst[i], src, prior[i], r[i]); }
    }
  }

  lemma NothingMerged(x: Rule)
    ensures Kept(x, [], x)
  {
  }

  lemma PrefixDistinct(src: seq<Rule>)
    requires RuleList.Distinct(src) && src != []
    ensures RuleList.Distinct(src[..|src| - 1])
  {
    hide KeyOf;
  }

  lemma EffectStays(prior: seq<Rule>, r: seq<Rule>, src: seq<Rule>, j: nat)
    requires RuleList.Distinct(src) && j < |src| - 1 && HasEffect(prior, src[j])
    requires forall i :: 0 <= i < |prior| && !SameIdentity(prior[i], src[|src| - 1]) ==> i < |r| && r[i] == prior[i]
    ensures HasEffect(r, src[j])
  {
    hide KeyOf, SameIdentity, SameEffect;
    IdentityIsKey();
    var i :| 0 <= i < |prior| && SameIdentity(prior[i], src[j]) && SameEffect(prior[i], src[j]);
    assert !SameIdentity(prior[i], src[|src| - 1]);
    assert r[i] == prior[i];
  }

  lemma EffectComes(prior: seq<Rule>, r: seq<Rule>, nr: Rule)
    requires forall i :: 0 <= i < |prior| && SameIdentity(prior[i], nr) ==> i < |r| && Merged(prior[i], nr, r[i])
    requires !Stored(prior, nr) ==> |r| == |prior| + 1 && r[|prior|] == nr.(id := r[|prior|].id)
    ensures HasEffect(r, nr)
  {
    hide KeyOf, SameIdentity;
    if Stored(prior, nr) {
      var i :| 0 <= i < |prior| && SameIdentity(prior[i], nr);
      assert SameIdentity(r[i], nr) && SameEffect(r[i], nr);
    } else {
      IdentityIgnores(nr, r[|prior|]);
      assert SameIdentity(r[|prior|], nr) && SameEffect(r[|prior|], nr);
    }
  }

  lemma KeptNext(was: Rule, src: seq<Rule>, before: Rule, after: Rule)
    requires src != [] && RuleList.Distinct(src) && Kept(was, src[..|src| - 1], before)
    requires !SameIdentity(before, src[|src| - 1]) ==> after == before
    requires SameIdentity(before, src[|src| - 1]) ==> Merged(before, src[|src| - 1], after)
    ensures Kept(was, src, after)
  {
    hide KeyOf, SameIdentity, SameEffect;
    IdentityIsKey();
    var n := |src| - 1;
    if Stored(src[..n], was) {
      var j :| 0 <= j < n && SameIdentity(src[..n][j], was) && Merged(was, src[..n][j], before);
      assert src[j] == src[..n][j];
      assert !SameIdentity(before, src[n]);
    } else if SameIdentity(before, src[n]) {
      assert SameIdentity(src[n], was) && Merged(was, src[n], after);
    } else {
      assert forall j :: 0 <= j < n ==> src[j] == src[..n][j];
    }
  }
}
