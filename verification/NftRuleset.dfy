/** The base chains of an nft ruleset as per-hook policies, and the whole
    import: which chain covers a family and hook, and what it decides. */
module NftRuleset {
  import opened Bytes
  import opened AddressSets
  import opened Outcomes
  import opened Rules
  import opened Netfilter
  import opened Matching
  import opened RuleCompiler
  import opened BuiltinChains
  import opened Compiler
  import opened RuleMerge
  import opened NftImport
  import RuleList

  // ---- base chains ----

  datatype Family = Ip | Ip6 | Inet

  datatype PolicyWord = NoWord | AcceptWord | DropWord | OtherWord

  datatype SourceChain = SourceChain(family: Family, hook: Hook, policy: PolicyWord)

  // nftPolicyMap: no policy is accept.
  function PolicyMap(w: PolicyWord): Option<Policy>
  {
    match w
    case NoWord => Some(AllowPolicy)
    case AcceptWord => Some(AllowPolicy)
    case DropWord => Some(DenyPolicy)
    case OtherWord => None
  }

  predicate CoversFamily(f: Family, v6: bool)
  {
    f == Inet || (f == Ip6) == v6
  }

  predicate HasChain(chains: seq<SourceChain>, f: Family, h: Hook)
  {
    exists i :: 0 <= i < |chains| && chains[i].family == f && chains[i].hook == h
  }

  // Chains one by one: representable policy, one chain per family and hook,
  // one policy per hook.
  predicate Cataloged(chains: seq<SourceChain>)
  {
    && (forall i :: 0 <= i < |chains| ==> PolicyMap(chains[i].policy).Some?)
    && (forall i, j :: 0 <= i < j < |chains| && chains[i].hook == chains[j].hook ==>
          chains[i].family != chains[j].family && PolicyMap(chains[i].policy) == PolicyMap(chains[j].policy))
  }

  function HookPolicy(chains: seq<SourceChain>, h: Hook): Option<Policy>
  {
    if chains == [] then None
    else
      var init, c := HookPolicy(chains[..|chains| - 1], h), chains[|chains| - 1];
      if init.Some? then init else if c.hook == h then PolicyMap(c.policy) else None
  }

  // One hook's coverage: nothing, one inet chain, ip and ip6, or one of
  // them beside an implicit accept.
  predicate HookCovered(chains: seq<SourceChain>, h: Hook)
  {
    var inet, ip, ip6 := HasChain(chains, Inet, h), HasChain(chains, Ip, h), HasChain(chains, Ip6, h);
    && !(inet && (ip || ip6))
    && (inet || (ip && ip6) || (!ip && !ip6) || HookPolicy(chains, h) == Some(AllowPolicy))
  }

  predicate Representable(chains: seq<SourceChain>)
  {
    Cataloged(chains) && HookCovered(chains, Input) && HookCovered(chains, Output) && HookCovered(chains, ForwardHook)
  }

  function PolicyAt(chains: seq<SourceChain>, h: Hook): Policy
  {
    var p := HookPolicy(chains, h);
    if p.Some? then p.value else AllowPolicy
  }

  // The first pass over the document, then the coverage check.
  method Catalog(chains: seq<SourceChain>) returns (r: Result<Policies>)
    ensures r.Ok? <==> Representable(chains)
    ensures r.Ok? ==> forall h :: r.value.Get(h) == PolicyAt(chains, h)
  {
    var hookChain: set<(Family, Hook)> := {};
    var hookPolicy: map<Hook, Policy> := map[];
    assert chains[..0] == [];
    for i := 0 to |chains|
      invariant Cataloged(chains[..i])
      invariant forall f, h :: (f, h) in hookChain <==> HasChain(chains[..i], f, h)
      invariant forall h :: HookPolicy(chains[..i], h) == if h in hookPolicy then Some(hookPolicy[h]) else None
    {
      var c := chains[i];
      CatalogStep(chains[..i], c);
      assert chains[..i + 1] == chains[..i] + [c];
      if (c.family, c.hook) in hookChain || PolicyMap(c.policy).None? {
        CatalogFails(chains, i);
        return Err;
      }
      hookChain := hookChain + {(c.family, c.hook)};
      var p := PolicyMap(c.policy).value;
      if c.hook in hookPolicy {
        if hookPolicy[c.hook] != p {
          CatalogFails(chains, i);
          return Err;
        }
      } else {
        hookPolicy := hookPolicy[c.hook := p];
      }
    }
    assert chains[..|chains|] == chains;
    var covered := CheckHook(hookChain, hookPolicy, Input, chains);
    if !covered { return Err; }
    covered := CheckHook(hookChain, hookPolicy, Output, chains);
    if !covered { return Err; }
    covered := CheckHook(hookChain, hookPolicy, ForwardHook, chains);
    if !covered { return Err; }
    r := Ok(Policies(if Input in hookPolicy then hookPolicy[Input] else AllowPolicy,
                     if Output in hookPolicy then hookPolicy[Output] else AllowPolicy,
                     if ForwardHook in hookPolicy then hookPolicy[ForwardHook] else AllowPolicy));
  }

  method CheckHook(hookChain: set<(Family, Hook)>, hookPolicy: map<Hook, Policy>, h: Hook,
      ghost chains: seq<SourceChain>)
    returns (ok: bool)
    requires forall f, g :: (f, g) in hookChain <==> HasChain(chains, f, g)
    requires HookPolicy(chains, h) == if h in hookPolicy then Some(hookPolicy[h]) else None
    ensures ok == HookCovered(chains, h)
  {
    var inet, ip, ip6 := (Inet, h) in hookChain, (Ip, h) in hookChain, (Ip6, h) in hookChain;
    if !inet && !ip && !ip6 { return true; }
    if inet && (ip || ip6) { return false; }
    if (!inet && !ip) || (!inet && !ip6) {
      return h in hookPolicy && hookPolicy[h] == AllowPolicy;
    }
    return true;
  }

  lemma {:induction false} PolicyOfHook(chains: seq<SourceChain>, h: Hook)
    requires Cataloged(chains)
    ensures HookPolicy(chains, h).None? <==> forall f :: !HasChain(chains, f, h)
    ensures forall i ::
            0 <= i < |chains| && chains[i].hook == h ==> HookPolicy(chains, h) == PolicyMap(chains[i].policy)
  {
    hide PolicyMap;
    if chains != [] {
      var n := |chains| - 1;
      assert Cataloged(chains[..n]);
      PolicyOfHook(chains[..n], h);
      forall f
        ensures HasChain(chains, f, h) <==>
                HasChain(chains[..n], f, h) || (chains[n].family == f && chains[n].hook == h)
      {
        HasSnoc(chains[..n], chains[n], f, h);
        assert chains == chains[..n] + [chains[n]];
      }
      assert chains[n].hook == h ==> HasChain(chains, chains[n].family, h);
    }
  }

  lemma HasSnoc(chains: seq<SourceChain>, c: SourceChain, f: Family, h: Hook)
    ensures HasChain(chains + [c], f, h) <==> HasChain(chains, f, h) || (c.family == f && c.hook == h)
  {
    var all := chains + [c];
    if HasChain(chains, f, h) {
      var i :| 0 <= i < |chains| && chains[i].family == f && chains[i].hook == h;
      assert all[i] == chains[i];
    }
    if c.family == f && c.hook == h { assert all[|chains|] == c; }
  }

  // Adding one chain to a good catalog.
  lemma CatalogStep(chains: seq<SourceChain>, c: SourceChain)
    requires Cataloged(chains)
    ensures Cataloged(chains + [c]) <==>
            && PolicyMap(c.policy).Some? && !HasChain(chains, c.family, c.hook)
            && (HookPolicy(chains, c.hook).Some? ==> HookPolicy(chains, c.hook) == PolicyMap(c.policy))
    ensures forall f, h :: HasChain(chains + [c], f, h) <==> HasChain(chains, f, h) || (c.family == f && c.hook == h)
    ensures forall h :: HookPolicy(chains + [c], h) ==
                        if HookPolicy(chains, h).Some?
                            then HookPolicy(chains, h) else if c.hook == h then PolicyMap(c.policy) else None
  {
    hide PolicyMap;
    var all := chains + [c];
    assert all[..|chains|] == chains;
    forall f, h
      ensures HasChain(all, f, h) <==> HasChain(chains, f, h) || (c.family == f && c.hook == h)
    {
      HasSnoc(chains, c, f, h);
    }
    PolicyOfHook(chains, c.hook);
    assert all[|chains|] == c && forall i :: 0 <= i < |chains| ==> all[i] == chains[i];
    if HookPolicy(chains, c.hook).Some? {
      var f :| HasChain(chains, f, c.hook);
      var i :| 0 <= i < |chains| && chains[i].family == f && chains[i].hook == c.hook;
      assert all[i].hook == all[|chains|].hook;
    }
    if HasChain(chains, c.family, c.hook) {
      var i :| 0 <= i < |chains| && chains[i].family == c.family && chains[i].hook == c.hook;
      assert all[i].hook == all[|chains|].hook;
    }
  }

  lemma CatalogFails(chains: seq<SourceChain>, i: nat)
    requires i < |chains| && !Cataloged(chains[..i + 1])
    ensures !Cataloged(chains)
  {
    hide PolicyMap;
    var some := chains[..i + 1];
    if Cataloged(chains) {
      assert forall k :: 0 <= k < |some| ==> some[k] == chains[k];
    }
  }

  // ---- coverage ----

  // The chain that sees a family's packets at a hook.
  predicate IsCover(chains: seq<SourceChain>, k: nat, h: Hook, v6: bool)
  {
    k < |chains| && chains[k].hook == h && CoversFamily(chains[k].family, v6)
  }

  // Per family and hook: at most one covering chain; its policy is the
  // hook's policy, and without one nft's implicit accept is.
  lemma {:induction false} HookPolicies(chains: seq<SourceChain>, h: Hook, v6: bool, k: nat)
    requires Representable(chains)
    ensures IsCover(chains, k, h, v6) ==> Some(PolicyAt(chains, h)) == PolicyMap(chains[k].policy)
    ensures IsCover(chains, k, h, v6) ==> forall j :: IsCover(chains, j, h, v6) ==> j == k
    ensures (forall j :: !IsCover(chains, j, h, v6)) ==> PolicyAt(chains, h) == AllowPolicy
  {
    hide PolicyMap;
    PolicyOfHook(chains, h);
    assert HookCovered(chains, h) by {
      match h
      case Input =>
      case Output =>
      case ForwardHook =>
    }
    if IsCover(chains, k, h, v6) {
      assert HasChain(chains, chains[k].family, h);
      forall j: nat | IsCover(chains, j, h, v6) ensures j == k {
        assert HasChain(chains, chains[j].family, h);
      }
    }
    if (forall j :: !IsCover(chains, j, h, v6)) && HookPolicy(chains, h).Some? {
      var f :| HasChain(chains, f, h);
      UncoveredAllows(chains, h, v6);
    }
  }

  lemma UncoveredAllows(chains: seq<SourceChain>, h: Hook, v6: bool)
    requires HookCovered(chains, h) && (forall j :: !IsCover(chains, j, h, v6)) && exists f :: HasChain(chains, f, h)
    ensures HookPolicy(chains, h) == Some(AllowPolicy)
  {
    hide HookPolicy;
    var mine := if v6 then Ip6 else Ip;
    forall i | 0 <= i < |chains|
      ensures !(chains[i].hook == h && (chains[i].family == Inet || chains[i].family == mine))
    {
      assert !IsCover(chains, i, h, v6);
    }
    assert !HasChain(chains, Inet, h) && !HasChain(chains, mine, h);
    var f :| HasChain(chains, f, h);
    assert HasChain(chains, Ip, h) || HasChain(chains, Ip6, h);
  }

  // ---- the rules of the document ----

  // A rule object: its chain, comment and expressions.
  datatype DocRule = DocRule(chain: Option<nat>, comment: string, exprs: seq<Stmt>)

  function FamOf(f: Family): Option<bool>
  {
    match f
    case Ip => Some(false)
    case Ip6 => Some(true)
    case Inet => None
  }

  function ConvertDoc(chains: seq<SourceChain>, d: DocRule): Result<Pair>
  {
    if d.chain.None? || d.chain.value >= |chains| then Err
    else ConvertSpec(chains[d.chain.value].hook, d.comment, FamOf(chains[d.chain.value].family), d.exprs)
  }

  predicate Convertible(chains: seq<SourceChain>, docs: seq<DocRule>)
  {
    forall i :: 0 <= i < |docs| ==> ConvertDoc(chains, docs[i]).Ok?
  }

  function Half(p: Pair, v6: bool): seq<Rule> { if v6 then p.v6 else p.v4 }

  // The converted rules of a family in document order.
  function Flat(chains: seq<SourceChain>, docs: seq<DocRule>, v6: bool): seq<Rule>
    requires Convertible(chains, docs)
  {
    if docs == [] then []
    else
      var n := |docs| - 1;
      assert forall i :: 0 <= i < n ==> docs[..n][i] == docs[i];
      Flat(chains, docs[..n], v6) + Half(ConvertDoc(chains, docs[n]).value, v6)
  }

  function Always(id: string): nat -> string { _ => id }

  // Merged one document rule at a time, into an empty list.
  function Merged(chains: seq<SourceChain>, docs: seq<DocRule>, v6: bool, newID: nat -> string): seq<Rule>
    requires Convertible(chains, docs)
  {
    if docs == [] then []
    else
      var n := |docs| - 1;
      assert forall i :: 0 <= i < n ==> docs[..n][i] == docs[i];
      Merge(Merged(chains, docs[..n], v6, newID), Half(ConvertDoc(chains, docs[n]).value, v6), Always(newID(n)))
  }

  // The second pass: convert and merge rule by rule; any error aborts.
  method ImportRules(chains: seq<SourceChain>, docs: seq<DocRule>, newID: nat -> string) returns (r: Result<Pair>)
    ensures r.Ok? <==> Convertible(chains, docs)
    ensures r.Ok? ==> r.value == Pair(Merged(chains, docs, false, newID), Merged(chains, docs, true, newID))
  {
    hide Merge, ConvertSpec;
    var rules4, rules6: seq<Rule> := [], [];
    assert docs[..0] == [];
    for i := 0 to |docs|
      invariant forall k :: 0 <= k < i ==> ConvertDoc(chains, docs[k]).Ok?
      invariant Convertible(chains, docs[..i])
      invariant rules4 == Merged(chains, docs[..i], false, newID) && rules6 == Merged(chains, docs[..i], true, newID)
    {
      assert docs[..i + 1][..i] == docs[..i];
      var d := docs[i];
      if d.chain.None? || d.chain.value >= |chains| { return Err; }
      var c := chains[d.chain.value];
      var pair := ConvertRule(c.hook, d.comment, FamOf(c.family), d.exprs);
      if pair.Err? { return Err; }
      assert forall k :: 0 <= k < |docs[..i + 1]| ==> docs[..i + 1][k] == docs[k];
      var added;
      rules4, added := MergeRules(rules4, pair.value.v4, Always(newID(i)));
      rules6, added := MergeRules(rules6, pair.value.v6, Always(newID(i)));
    }
    assert docs[..|docs|] == docs;
    return Ok(Pair(rules4, rules6));
  }

  lemma HalfShort(chains: seq<SourceChain>, d: DocRule, v6: bool)
    requires ConvertDoc(chains, d).Ok?
    ensures |Half(ConvertDoc(chains, d).value, v6)| <= 1
  {
    hide ApplyAll, Finished, NftImport.Blank;
  }

  // With pairwise distinct identities merging keeps every rule in place.
  lemma {:induction false} MergedIsFlat(chains: seq<SourceChain>, docs: seq<DocRule>, v6: bool, newID: nat -> string)
    requires Convertible(chains, docs) && RuleList.Distinct(Flat(chains, docs, v6))
    ensures SameButIds(Merged(chains, docs, v6, newID), Flat(chains, docs, v6))
  {
    hide KeyOf, ConvertDoc, MergeOne;
    if docs != [] {
      var n := |docs| - 1;
      assert forall i :: 0 <= i < n ==> docs[..n][i] == docs[i];
      var flat, half := Flat(chains, docs[..n], v6), Half(ConvertDoc(chains, docs[n]).value, v6);
      assert forall i :: 0 <= i < |flat| ==> (flat + half)[i] == flat[i];
      MergedIsFlat(chains, docs[..n], v6, newID);
      HalfShort(chains, docs[n], v6);
      var dst, names := Merged(chains, docs[..n], v6, newID), Always(newID(n));
      if half == [] {
        assert Merge(dst, half, names) == dst && flat + half == flat;
      } else {
        assert half == [half[0]] && half[..0] == [] && (flat + half)[|flat|] == half[0];
        assert Merge(dst, [], names) == dst;
        assert Merge(dst, half, names) == MergeOne(dst, half[0], newID(n));
        AppendNew(dst, flat, half[0], newID(n));
      }
    }
  }

  lemma AppendNew(dst: seq<Rule>, flat: seq<Rule>, r: Rule, spare: string)
    requires SameButIds(dst, flat) && forall i :: 0 <= i < |flat| ==> KeyOf(flat[i]) != KeyOf(r)
    ensures SameButIds(MergeOne(dst, r, spare), flat + [r])
  {
    hide KeyOf;
    forall i | 0 <= i < |dst| ensures KeyOf(dst[i]) != KeyOf(r) {
      assert SameButId(dst[i], flat[i]);
      SameKey(flat[i], dst[i]);
    }
    assert !RuleList.HasKey(dst, KeyOf(r));
  }

  // ---- decisions ----

  // A rule the importer handles exactly.
  predicate PlainStmt(e: Stmt) { e.IfName? ==> PlainName(e.name) }

  ghost predicate Exact(chains: seq<SourceChain>, d: DocRule)
  {
    && (forall e :: e in d.exprs ==> ValidStmt(e) && PlainStmt(e))
    && d.chain.Some? && d.chain.value < |chains|
    && Narrowing(d.exprs)
  }

  function VerdictOf(a: Action): Decision
  {
    match a
    case Allow => Accepted
    case Reject => Rejected
    case _ => Dropped
  }

  // The verdict of an expression list is its last expression.
  function LastVerdict(es: seq<Stmt>): Decision
  {
    if es != [] && es[|es| - 1].VerdictStmt? then VerdictOf(es[|es| - 1].action) else Dropped
  }

  // First match over the rules of one chain.
  ghost function FirstInChain(docs: seq<DocRule>, k: nat, p: Packet): Option<Decision>
    requires p.Valid() && forall d :: d in docs ==> forall e :: e in d.exprs ==> ValidStmt(e)
  {
    if docs == [] then None
    else
      var init := FirstInChain(docs[..|docs| - 1], k, p);
      if init.Some? then init
      else
        var d := docs[|docs| - 1];
        assert d in docs;
        if d.chain == Some(k) && AllHold(d.exprs, p) then Some(LastVerdict(d.exprs)) else None
  }

  lemma VerdictLast(c: Conv, es: seq<Stmt>)
    requires ApplyAll(c, es).Ok? && ApplyAll(c, es).value.verdict && !c.verdict
    ensures es != [] && es[|es| - 1].VerdictStmt? && ApplyAll(c, es).value.r.action == es[|es| - 1].action
  {
    hide SetProto, SetIface, SetHost, SetPort, SetIcmp, SetPrefix, Restrict;
    var n := |es| - 1;
    OnlyVerdictSets(ApplyAll(c, es[..n]).value, es[n]);
  }

  lemma OnlyVerdictSets(c: Conv, e: Stmt)
    requires Apply(c, e).Ok?
    ensures Apply(c, e).value.verdict ==> e.VerdictStmt? && Apply(c, e).value.r.action == e.action
  {
  }

  // A document rule decides, at its chain's hook, the packets its chain
  // sees and its expressions select.
  lemma DocDecides(chains: seq<SourceChain>, d: DocRule, h: Hook, now: int, p: Packet, env: Env)
    requires p.Valid() && IcmpAtHome(p) && Exact(chains, d) && ConvertDoc(chains, d).Ok?
    ensures var half, c := Half(ConvertDoc(chains, d).value, p.v6), chains[d.chain.value];
            && (forall r :: r in half ==> r.Valid() && r.action in {Allow, Deny, Reject})
            && FirstMatch(half, h, now, p, env) ==
               When(c.hook == h && CoversFamily(c.family, p.v6) && AllHold(d.exprs, p), LastVerdict(d.exprs))
  {
    hide AllHold, Narrowing, Matches, NftImport.Finished, Holds, ValidStmt, PlainName, ApplyAll, NftImport.Blank;
    var c := chains[d.chain.value];
    ConversionExact(c.hook, d.comment, FamOf(c.family), d.exprs, p, env);
    var half := Half(ConvertDoc(chains, d).value, p.v6);
    HalfShort(chains, d, p.v6);
    ConvertedVerdict(c.hook, d.comment, FamOf(c.family), d.exprs, p.v6);
    if half != [] {
      assert half == [half[0]] && half[1..] == [];
      ActionDecides(half[0], p, env);
    }
  }

  lemma ActionDecides(r: Rule, p: Packet, env: Env)
    requires r.action in {Allow, Deny, Reject}
    ensures ActionDecision(r, p, env) == VerdictOf(r.action)
  {
  }

  lemma ConvertedVerdict(h: Hook, comment: string, fam: Option<bool>, es: seq<Stmt>, v6: bool)
    requires ConvertSpec(h, comment, fam, es).Ok? && (forall e :: e in es ==> ValidStmt(e) && PlainStmt(e))
    ensures var mine := Half(ConvertSpec(h, comment, fam, es).value, v6);
            mine != [] ==> VerdictOf(mine[0].action) == LastVerdict(es) && !mine[0].disabled && mine[0].expiresAt == 0
  {
    hide Apply, ValidStmt, PlainName;
    var b := NftImport.Blank(h, comment, fam);
    VerdictLast(b, es);
    ApplyAllAlive(b, es);
  }

  lemma {:induction false} ApplyAllAlive(c: Conv, es: seq<Stmt>)
    requires ApplyAll(c, es).Ok?
    ensures ApplyAll(c, es).value.r.disabled == c.r.disabled && ApplyAll(c, es).value.r.expiresAt == c.r.expiresAt
  {
    hide Apply;
    if es != [] {
      var n := |es| - 1;
      ApplyAllAlive(c, es[..n]);
      ApplyAlive(ApplyAll(c, es[..n]).value, es[n]);
    }
  }

  lemma ApplyAlive(c: Conv, e: Stmt)
    requires Apply(c, e).Ok?
    ensures Apply(c, e).value.r.disabled == c.r.disabled && Apply(c, e).value.r.expiresAt == c.r.expiresAt
  {
  }

  ghost predicate AllExact(chains: seq<SourceChain>, docs: seq<DocRule>)
  {
    forall i :: 0 <= i < |docs| ==> Exact(chains, docs[i])
  }

  // The flat list of a family decides at each hook as the covering chain's
  // own rules do.
  lemma {:induction false} FlatDecides(chains: seq<SourceChain>, docs: seq<DocRule>, h: Hook, k: nat, now: int,
      p: Packet, env: Env)
    requires p.Valid() && IcmpAtHome(p) && Representable(chains) && Convertible(chains, docs) && AllExact(chains, docs)
    requires IsCover(chains, k, h, p.v6) || forall j :: !IsCover(chains, j, h, p.v6)
    ensures forall r :: r in Flat(chains, docs, p.v6) ==> r.Valid() && r.action in {Allow, Deny, Reject}
    ensures FirstMatch(Flat(chains, docs, p.v6), h, now, p, env)
            == if IsCover(chains, k, h, p.v6) then FirstInChain(docs, k, p) else None
  {
    hide FirstMatch, AllHold, Narrowing, ConvertDoc, Representable, LastVerdict, ValidStmt, PlainStmt;
    if docs == [] {
      NoneMatch(h, now, p, env);
    } else {
      var n := |docs| - 1;
      var d := docs[n];
      assert forall i :: 0 <= i < n ==> docs[..n][i] == docs[i];
      FlatDecides(chains, docs[..n], h, k, now, p, env);
      assert Exact(chains, d);
      DocDecides(chains, d, h, now, p, env);
      HookPolicies(chains, h, p.v6, k);
      var j := d.chain.value;
      assert IsCover(chains, j, h, p.v6) <==> chains[j].hook == h && CoversFamily(chains[j].family, p.v6);
      FirstMatchAppend(Flat(chains, docs[..n], p.v6), Half(ConvertDoc(chains, d).value, p.v6), h, now, p, env);
    }
  }

  lemma NoneMatch(h: Hook, now: int, p: Packet, env: Env)
    requires p.Valid()
    ensures FirstMatch([], h, now, p, env) == None
  {
  }

  // What the source ruleset does with a packet at a hook.
  ghost function SourceDecision(chains: seq<SourceChain>, docs: seq<DocRule>, h: Hook, k: nat, p: Packet): Decision
    requires p.Valid() && forall d :: d in docs ==> forall e :: e in d.exprs ==> ValidStmt(e)
  {
    if IsCover(chains, k, h, p.v6) then
      var d := FirstInChain(docs, k, p);
      if d.Some? then d.value
      else if PolicyMap(chains[k].policy).Some? then PolicyVerdict(PolicyMap(chains[k].policy).value) else Dropped
    else Accepted
  }

  // The import keeps decisions: for every family and hook, first match over
  // the merged list and then the hook's policy is what the covering chain
  // (k), or nft's implicit accept, decides.
  lemma {:induction false} ImportDecides(chains: seq<SourceChain>, docs: seq<DocRule>, newID: nat -> string, h: Hook,
      k: nat, now: int, p: Packet, env: Env)
    requires p.Valid() && IcmpAtHome(p) && Representable(chains) && Convertible(chains, docs) && AllExact(chains, docs)
    requires RuleList.Distinct(Flat(chains, docs, p.v6))
    requires IsCover(chains, k, h, p.v6) || forall j :: !IsCover(chains, j, h, p.v6)
    ensures var r := Merged(chains, docs, p.v6, newID);
            && (forall x :: x in r ==> x.Valid())
            && (forall d :: d in docs ==> forall e :: e in d.exprs ==> ValidStmt(e))
            && Or(FirstMatch(r, h, now, p, env), Some(PolicyVerdict(PolicyAt(chains, h)))) ==
            Some(SourceDecision(chains, docs, h, k, p))
  {
    hide FirstMatch, ConvertDoc, Representable, RuleList.Distinct, Merged, Flat, Narrowing, ValidStmt, PlainStmt,
         PolicyAt, FirstInChain;
    var r, flat := Merged(chains, docs, p.v6, newID), Flat(chains, docs, p.v6);
    MergedIsFlat(chains, docs, p.v6, newID);
    FlatDecides(chains, docs, h, k, now, p, env);
    SameValid(r, flat);
    IdsDoNotDecide(r, flat, h, now, p, env);
    HookPolicies(chains, h, p.v6, k);
  }
}
