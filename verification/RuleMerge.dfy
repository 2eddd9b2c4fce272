/** Merging imported rules into a stored list. */
module RuleMerge {
  import opened Bytes
  import opened AddressSets
  import opened Outcomes
  import opened Rules
  import opened Netfilter
  import opened Matching
  import opened RuleCompiler
  import opened BuiltinChains
  import opened Compiler
  import RuleList

  predicate IdUsed(rules: seq<Rule>, id: string)
  {
    exists i :: 0 <= i < |rules| && rules[i].id == id
  }

  // The stored rule keeps its ID and what the import does not know.
  function Replaced(kept: Rule, nr: Rule): Rule
  {
    nr.(id := kept.id, disabled := kept.disabled, expiresAt := kept.expiresAt)
  }

  // One imported rule: skipped, replacing in place, or appended.
  function MergeOne(dst: seq<Rule>, nr: Rule, spare: string): seq<Rule>
  {
    var m := RuleList.Find(dst, KeyOf(nr));
    if m.None? then dst + [if nr.id == "" || IdUsed(dst, nr.id) then nr.(id := spare) else nr]
    else if Match(nr, dst[m.value]) == MatchExact then dst
    else dst[m.value := Replaced(dst[m.value], nr)]
  }

  // newID stands for the random identifiers drawn along the way.
  function Merge(dst: seq<Rule>, src: seq<Rule>, newID: nat -> string): seq<Rule>
  {
    if src == [] then dst
    else MergeOne(Merge(dst, src[..|src| - 1], newID), src[|src| - 1], newID(|src| - 1))
  }

  method MergeRules(dst: seq<Rule>, src: seq<Rule>, newID: nat -> string) returns (out: seq<Rule>, added: nat)
    ensures out == Merge(dst, src, newID)
    ensures added <= |src| && (added == 0 ==> out == dst)
  {
    hide KeyOf, RuleList.Find;
    out, added := dst, 0;
    assert src[..0] == [];
    for i := 0 to |src|
      invariant out == Merge(dst, src[..i], newID) && added <= i && (added == 0 ==> out == dst)
    {
      assert src[..i + 1][..i] == src[..i];
      var nr := src[i];
      var j := 0;
      ghost var m := RuleList.Find(out, KeyOf(nr));
      while j < |out| && Match(nr, out[j]) == MatchNone
        invariant 0 <= j <= |out| && forall k :: 0 <= k < j ==> KeyOf(out[k]) != KeyOf(nr)
      {
        j := j + 1;
      }
      if j < |out| {
        FirstKey(out, nr, j);
        if Match(nr, out[j]) != MatchExact {
          out := out[j := Replaced(out[j], nr)];
          added := added + 1;
        }
      } else {
        if nr.id == "" || IdUsed(out, nr.id) { nr := nr.(id := newID(i)); }
        out := out + [nr];
        added := added + 1;
      }
    }
    assert src[..|src|] == src;
  }

  lemma FirstKey(list: seq<Rule>, nr: Rule, j: nat)
    requires j < |list| && Match(nr, list[j]) != MatchNone && forall k :: 0 <= k < j ==> KeyOf(list[k]) != KeyOf(nr)
    ensures RuleList.Find(list, KeyOf(nr)) == Some(j)
  {
    hide KeyOf;
    assert RuleList.HasKey(list, KeyOf(nr));
  }

  // Identities stay distinct, and the merged list has those of both.
  lemma {:induction false} MergeKeys(dst: seq<Rule>, src: seq<Rule>, newID: nat -> string, key: TupleKey)
    requires RuleList.Distinct(dst)
    ensures var r := Merge(dst, src, newID);
            RuleList.Distinct(r)
              && (RuleList.HasKey(r, key) <==> RuleList.HasKey(dst, key) || RuleList.HasKey(src, key))
  {
    hide KeyOf, MergeOne;
    if src != [] {
      var n := |src| - 1;
      MergeKeys(dst, src[..n], newID, key);
      MergeOneKeys(Merge(dst, src[..n], newID), src[n], newID(n), key);
      KeySnoc(src, key);
    }
  }

  lemma KeySnoc(src: seq<Rule>, key: TupleKey)
    requires src != []
    ensures RuleList.HasKey(src, key) <==> RuleList.HasKey(src[..|src| - 1], key) || KeyOf(src[|src| - 1]) == key
  {
    hide KeyOf;
    if RuleList.HasKey(src[..|src| - 1], key) {
      var i :| 0 <= i < |src| - 1 && KeyOf(src[..|src| - 1][i]) == key;
      assert KeyOf(src[i]) == key;
    }
    if RuleList.HasKey(src, key) && KeyOf(src[|src| - 1]) != key {
      var i :| 0 <= i < |src| && KeyOf(src[i]) == key;
      assert KeyOf(src[..|src| - 1][i]) == key;
    }
  }

  lemma MergeOneKeys(dst: seq<Rule>, nr: Rule, spare: string, key: TupleKey)
    requires RuleList.Distinct(dst)
    ensures var r := MergeOne(dst, nr, spare);
            RuleList.Distinct(r) && (RuleList.HasKey(r, key) <==> RuleList.HasKey(dst, key) || KeyOf(nr) == key)
  {
    hide KeyOf, RuleList.Distinct, RuleList.HasKey, RuleList.Find;
    var m := RuleList.Find(dst, KeyOf(nr));
    if m.None? {
      var x := if nr.id == "" || IdUsed(dst, nr.id) then nr.(id := spare) else nr;
      SameKey(nr, x);
      RuleList.WithKeys(dst, |dst|, x, key);
      assert dst[..|dst|] + [x] + dst[|dst|..] == dst + [x];
    } else {
      var x := Replaced(dst[m.value], nr);
      SameKey(nr, x);
      RuleList.ReplacedKeys(dst, m.value, x, key);
      RuleList.ReplacedKeys(dst, m.value, x, KeyOf(nr));
      KeyAt(dst, m.value);
    }
  }

  lemma KeyAt(list: seq<Rule>, i: nat)
    requires i < |list|
    ensures RuleList.HasKey(list, KeyOf(list[i]))
  {
  }

  lemma SameKey(a: Rule, b: Rule)
    requires b == a.(id := b.id, disabled := b.disabled, expiresAt := b.expiresAt)
    ensures KeyOf(a) == KeyOf(b)
  {
  }

  // ---- into an empty list ----

  predicate SameButId(a: Rule, b: Rule) { a == b.(id := a.id) }

  ghost predicate SameButIds(a: seq<Rule>, b: seq<Rule>)
  {
    |a| == |b| && forall i :: 0 <= i < |a| ==> SameButId(a[i], b[i])
  }

  // Rules with pairwise distinct identities arrive unchanged and in order.
  lemma {:induction false} MergeIntoEmpty(src: seq<Rule>, newID: nat -> string)
    requires RuleList.Distinct(src)
    ensures SameButIds(Merge([], src, newID), src)
  {
    hide KeyOf, RuleList.Find;
    if src != [] {
      var n := |src| - 1;
      MergeIntoEmpty(src[..n], newID);
      var dst := Merge([], src[..n], newID);
      forall i | 0 <= i < |dst| ensures KeyOf(dst[i]) != KeyOf(src[n]) {
        assert SameButId(dst[i], src[..n][i]);
        SameKey(src[..n][i], dst[i]);
      }
      assert !RuleList.HasKey(dst, KeyOf(src[n]));
    }
  }

  // IDs only matter to limit meters.
  lemma {:induction false} IdsDoNotDecide(a: seq<Rule>, b: seq<Rule>, h: Hook, now: int, p: Packet, env: Env)
    requires p.Valid() && SameButIds(a, b) && (forall r :: r in b ==> r.Valid() && r.action != Limit)
    requires forall r :: r in a ==> r.Valid()
    ensures FirstMatch(a, h, now, p, env) == FirstMatch(b, h, now, p, env)
  {
    if b != [] {
      assert forall i :: 0 <= i < |a[1..]| ==> a[1..][i] == a[i + 1] && b[1..][i] == b[i + 1];
      IdsDoNotDecide(a[1..], b[1..], h, now, p, env);
      assert SameButId(a[0], b[0]);
      OneId(a[0], b[0], h, now, p, env);
    }
  }

  lemma OneId(a: Rule, b: Rule, h: Hook, now: int, p: Packet, env: Env)
    requires p.Valid() && a.Valid() && b.Valid() && SameButId(a, b) && b.action != Limit
    ensures Matches(a, p, env) == Matches(b, p, env) && ActionDecision(a, p, env) == ActionDecision(b, p, env)
    ensures a.Active(now) == b.Active(now) && a.direction == b.direction
  {
    hide AddrHolds, Covers, Carries, HasIcmpType, IfaceHolds;
  }

  lemma SameValid(a: seq<Rule>, b: seq<Rule>)
    requires SameButIds(a, b) && forall r :: r in b ==> r.Valid()
    ensures forall r :: r in a ==> r.Valid()
  {
    forall r | r in a ensures r.Valid() {
      var i :| 0 <= i < |a| && a[i] == r;
      assert SameButId(a[i], b[i]) && b[i] in b;
    }
  }
}
