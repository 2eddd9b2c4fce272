/** Which base chains the nft import can represent, told on what they do to
    the packets of each family. */
module NftChains {
  import opened Outcomes
  import opened Netfilter
  import opened BuiltinChains
  import opened NftRuleset

  // Both chains see packets of one family.
  predicate Meet(f: Family, g: Family) { f == Inet || g == Inet || f == g }

  predicate SeenBy(f: Family, v6: bool) { f == Inet || f == if v6 then Ip6 else Ip }

  // A packet of the family that no rule decides is dropped at the hook.
  predicate Drops(chains: seq<SourceChain>, h: Hook, v6: bool)
  {
    exists i :: 0 <= i < |chains| && chains[i].hook == h && SeenBy(chains[i].family, v6) && chains[i].policy == DropWord
  }

  predicate Alone(chains: seq<SourceChain>, i: nat)
    requires i < |chains|
  {
    forall j :: 0 <= j < |chains| && j != i && chains[j].hook == chains[i].hook ==>
      !Meet(chains[i].family, chains[j].family)
  }

  // Known policies, no two chains of a hook on one family, and at each hook
  // the same for both families.
  predicate OnePolicyFitsAll(chains: seq<SourceChain>)
  {
    && (forall i :: 0 <= i < |chains| ==> chains[i].policy != OtherWord && Alone(chains, i))
    && forall h :: Drops(chains, h, false) <==> Drops(chains, h, true)
  }

  lemma HasAt(chains: seq<SourceChain>, i: nat)
    requires i < |chains|
    ensures HasChain(chains, chains[i].family, chains[i].hook)
  {
  }

  lemma CoversAlone(chains: seq<SourceChain>)
    requires Cataloged(chains) && forall h :: HookCovered(chains, h)
    ensures forall i :: 0 <= i < |chains| ==> chains[i].policy != OtherWord && Alone(chains, i)
  {
    hide HookPolicy, HasChain;
    forall i | 0 <= i < |chains| ensures chains[i].policy != OtherWord && Alone(chains, i) {
      assert PolicyMap(chains[i].policy).Some?;
      forall j | 0 <= j < |chains| && j != i && chains[j].hook == chains[i].hook
        ensures !Meet(chains[i].family, chains[j].family)
      {
        HasAt(chains, i);
        HasAt(chains, j);
        assert HookCovered(chains, chains[i].hook);
        if i < j { assert chains[i].family != chains[j].family; } else { assert chains[j].family != chains[i].family; }
      }
    }
  }

  lemma SameDrops(chains: seq<SourceChain>, h: Hook)
    requires Cataloged(chains) && HookCovered(chains, h)
    ensures Drops(chains, h, false) <==> Drops(chains, h, true)
  {
    hide HookPolicy;
    PolicyOfHook(chains, h);
    if Drops(chains, h, false) { DropsOther(chains, h, false); }
    if Drops(chains, h, true) { DropsOther(chains, h, true); }
  }

  lemma DropsOther(chains: seq<SourceChain>, h: Hook, v6: bool)
    requires Cataloged(chains) && HookCovered(chains, h) && Drops(chains, h, v6)
    ensures Drops(chains, h, !v6)
  {
    hide HookPolicy;
    PolicyOfHook(chains, h);
    var i :| 0 <= i < |chains| && chains[i].hook == h && SeenBy(chains[i].family, v6) && chains[i].policy == DropWord;
    HasAt(chains, i);
    assert HookPolicy(chains, h) == Some(DenyPolicy);
    if chains[i].family != Inet {
      var other := if v6 then Ip else Ip6;
      assert HasChain(chains, other, h);
      var j :| 0 <= j < |chains| && chains[j].family == other && chains[j].hook == h;
      assert PolicyMap(chains[j].policy) == Some(DenyPolicy);
      assert SeenBy(chains[j].family, !v6);
    } else {
      assert SeenBy(chains[i].family, !v6);
    }
  }

  lemma FitsCataloged(chains: seq<SourceChain>)
    requires OnePolicyFitsAll(chains)
    ensures Cataloged(chains)
  {
    hide Meet;
    forall i, j | 0 <= i < j < |chains| && chains[i].hook == chains[j].hook
      ensures chains[i].family != chains[j].family && PolicyMap(chains[i].policy) == PolicyMap(chains[j].policy)
    {
      assert Alone(chains, i) && Alone(chains, j);
      assert !Meet(chains[i].family, chains[j].family);
      PolicyAgrees(chains, i, j);
    }
    forall i | 0 <= i < |chains| ensures PolicyMap(chains[i].policy).Some? { assert chains[i].policy != OtherWord; }
  }

  lemma PolicyAgrees(chains: seq<SourceChain>, i: nat, j: nat)
    requires OnePolicyFitsAll(chains) && i < |chains| && j < |chains| && i != j && chains[i].hook == chains[j].hook
    ensures chains[i].family != chains[j].family && PolicyMap(chains[i].policy) == PolicyMap(chains[j].policy)
  {
    var h := chains[i].hook;
    assert !Meet(chains[i].family, chains[j].family) by { assert Alone(chains, i); }
    DropsAs(chains, i, chains[i].family == Ip6);
    DropsAs(chains, j, chains[j].family == Ip6);
    assert Drops(chains, h, false) <==> Drops(chains, h, true);
    assert chains[i].policy != OtherWord && chains[j].policy != OtherWord;
  }

  // A chain that is alone decides its family.
  lemma DropsAs(chains: seq<SourceChain>, i: nat, v6: bool)
    requires i < |chains| && Alone(chains, i) && SeenBy(chains[i].family, v6)
    ensures Drops(chains, chains[i].hook, v6) <==> chains[i].policy == DropWord
  {
  }

  lemma FitsCovered(chains: seq<SourceChain>, h: Hook)
    requires OnePolicyFitsAll(chains)
    ensures HookCovered(chains, h)
  {
    hide HookPolicy;
    FitsCataloged(chains);
    PolicyOfHook(chains, h);
    if HasChain(chains, Inet, h) {
      var i :| 0 <= i < |chains| && chains[i].family == Inet && chains[i].hook == h;
      assert Alone(chains, i);
    } else if HasChain(chains, Ip, h) != HasChain(chains, Ip6, h) {
      var v6 := HasChain(chains, Ip6, h);
      var mine := if v6 then Ip6 else Ip;
      var i :| 0 <= i < |chains| && chains[i].family == mine && chains[i].hook == h;
      assert !Drops(chains, h, !v6);
      assert Drops(chains, h, false) <==> Drops(chains, h, true);
      assert SeenBy(chains[i].family, v6) && chains[i].policy != OtherWord;
      assert chains[i].policy != DropWord;
    }
  }

  // The import takes the chains exactly when one policy for each hook does
  // what they do to either family.
  lemma {:induction false} RepresentableIff(chains: seq<SourceChain>)
    ensures Representable(chains) <==> OnePolicyFitsAll(chains)
  {
    hide Cataloged, HookCovered, OnePolicyFitsAll;
    if Representable(chains) {
      forall h ensures HookCovered(chains, h) { EachHook(chains, h); }
      CoversAlone(chains);
      forall h ensures Drops(chains, h, false) <==> Drops(chains, h, true) { SameDrops(chains, h); }
      Fits(chains);
    }
    if OnePolicyFitsAll(chains) {
      FitsCataloged(chains);
      FitsCovered(chains, Input);
      FitsCovered(chains, Output);
      FitsCovered(chains, ForwardHook);
    }
  }

  lemma EachHook(chains: seq<SourceChain>, h: Hook)
    requires HookCovered(chains, Input) && HookCovered(chains, Output) && HookCovered(chains, ForwardHook)
    ensures HookCovered(chains, h)
  {
    hide HookCovered;
  }

  lemma Fits(chains: seq<SourceChain>)
    requires forall i :: 0 <= i < |chains| ==> chains[i].policy != OtherWord && Alone(chains, i)
    requires forall h :: Drops(chains, h, false) <==> Drops(chains, h, true)
    ensures OnePolicyFitsAll(chains)
  {
  }

  // The policy the import gives a hook: drop where the chains drop.
  lemma {:induction false} PolicyMeans(chains: seq<SourceChain>, h: Hook, v6: bool)
    requires Representable(chains)
    ensures PolicyVerdict(PolicyAt(chains, h)) == if Drops(chains, h, v6) then Dropped else Accepted
  {
    hide HookPolicy, HookCovered, Representable;
    RepresentableIff(chains);
    HookOfPolicy(chains, h);
    if Drops(chains, h, v6) {
      var i :| 0 <= i < |chains| && chains[i].hook == h && SeenBy(chains[i].family, v6) && chains[i].policy == DropWord;
      HasAt(chains, i);
    } else if HookPolicy(chains, h).Some? {
      var f :| HasChain(chains, f, h);
      var i :| 0 <= i < |chains| && chains[i].family == f && chains[i].hook == h;
      assert SeenBy(chains[i].family, false) || SeenBy(chains[i].family, true);
      assert chains[i].policy != OtherWord && chains[i].policy != DropWord;
    }
  }

  lemma HookOfPolicy(chains: seq<SourceChain>, h: Hook)
    requires Representable(chains)
    ensures HookPolicy(chains, h).None? <==> forall f :: !HasChain(chains, f, h)
    ensures forall i ::
              0 <= i < |chains| && chains[i].hook == h ==> HookPolicy(chains, h) == PolicyMap(chains[i].policy)
  {
    hide HookPolicy, HookCovered, HasChain, PolicyMap;
    PolicyOfHook(chains, h);
  }
}
