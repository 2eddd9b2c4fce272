/** The expiry clause: it sets when the rule ends and nothing else. */
module CommandExpiry {
  import opened Bytes
  import opened AddressSets
  import opened Outcomes
  import opened Rules
  import opened Normalization
  import opened Grammar
  import CommandEcho

  // ---- an expiry ----

  function ExpiresToks(d: nat): seq<Tok> { [Word("expires"), Duration(d)] }

  function Expiring(r: Rule, at: int): Rule { r.(expiresAt := at) }

  function ExpiringOp(r: Result<Op>, at: int): Result<Op>
  {
    if r.Ok? && r.value.RuleOp? then Ok(r.value.(rule := Expiring(r.value.rule, at))) else r
  }

  // ---- fields the expiry does not touch ----

  function ExpiringClauses(c: Result<Clauses>, at: int): Result<Clauses>
  {
    if c.Err? then Err else Ok(c.value.(r := Expiring(c.value.r, at)))
  }

  lemma ClauseExpiring(c: Clauses, key: Tok, value: Option<Tok>, seen: bool, at: int)
    ensures ClauseAt(c.(r := Expiring(c.r, at)), key, value, seen) == ExpiringClauses(ClauseAt(c, key, value, seen), at)
  {
    hide IfaceText, SpansOk, ParseAddr, ProtoOf;
  }

  lemma {:induction false} LoopExpiring(argv: seq<Tok>, i: nat, c: Clauses, at: int)
    requires i <= |argv|
    ensures ClauseLoop(argv, i, c.(r := Expiring(c.r, at))) == ExpiringClauses(ClauseLoop(argv, i, c), at)
    decreases |argv| - i
  {
    hide ClauseAt, IsKey, Expiring;
    if i < |argv| {
      if !IsKey(argv[i]) {
        if i % 2 == 0 { LoopExpiring(argv, i + 1, c, at); }
      } else {
        var value := if i + 1 < |argv| then Some(argv[i + 1]) else None;
        var seen := Word("proto") in argv[..i];
        ClauseExpiring(c, argv[i], value, seen, at);
        var d := ClauseAt(c, argv[i], value, seen);
        if d.Ok? { LoopExpiring(argv, i + 1, d.value, at); }
      }
    }
  }

  lemma ShortExpiring(r: Rule, t: Tok, at: int)
    ensures ShortToken(Expiring(r, at), t) ==
            (var s := ShortToken(r, t); if s.Err? then Err else Ok(Expiring(s.value, at)))
  {
    hide SpansOk, ProtoOf;
  }

  lemma IfaceExpiring(r: Rule, inbound: bool, t: Tok, at: int)
    ensures SetIface(Expiring(r, at), inbound, t) ==
            (var s := SetIface(r, inbound, t); if s.Err? then Err else Ok(Expiring(s.value, at)))
  {
    hide IfaceText;
  }

  lemma BodyExpiring(r: Rule, argv: seq<Tok>, hasIface: bool, at: int)
    ensures BodyPass(Expiring(r, at), argv, hasIface) ==
            (var b := BodyPass(r, argv, hasIface);
              if b.Err? then Err else Ok((Expiring(b.value.0, at), b.value.1)))
  {
    hide ClauseLoop, ShortToken, SetIface, ProperCounts, Expiring, TypeOf, Lower;
    if |argv| == 2 {
      ShortExpiring(r, argv[1], at);
    } else if |argv| > 2 && hasIface && |argv| == 4 {
      IfaceExpiring(r, LowerIs(argv[1], "in"), argv[2], at);
      var f := SetIface(r, LowerIs(argv[1], "in"), argv[2]);
      if f.Ok? { ShortExpiring(f.value, argv[3], at); }
    } else {
      LoopExpiring(argv, 0, Clauses(r, None, AnyType, AnyType), at);
    }
  }

  lemma RoutedExpiring(r: Rule, routing: Routing, at: int)
    ensures RoutedRule(Expiring(r, at), routing) ==
            (var q := RoutedRule(r, routing); if q.Err? then Err else Ok(Expiring(q.value, at)))
  {
    hide SetIface;
    if routing.routed && routing.deferred.Some? {
      IfaceExpiring(r.(routeDir := r.direction, direction := Routed), routing.deferred.value.0,
                    Word(routing.deferred.value.1), at);
    }
  }

  lemma StampExpiring(r: Rule, t: IPType, at: int)
    ensures Stamped(Expiring(r, at)) == Expiring(Stamped(r), at) && Normal(Expiring(r, at)) == Expiring(Normal(r), at)
    ensures VerifyPass(Expiring(r, at), t) == VerifyPass(r, t)
  {
    hide SortPorts, CanonAddr, Stamp, Multi;
  }

  lemma FinishExpiring(r: Rule, t: IPType, routing: Routing, kind: Kind, num: nat, at: int)
    ensures FinishPass(Expiring(r, at), t, routing, kind, num) == ExpiringOp(FinishPass(r, t, routing, kind, num), at)
  {
    hide RoutedRule, Stamped, Normal, VerifyPass, Expiring;
    StampExpiring(r, t, at);
    RoutedExpiring(Stamped(r), routing, at);
    var q := RoutedRule(Stamped(r), routing);
    if q.Ok? { StampExpiring(q.value, t, at); }
  }

  // ---- the passes before it ----

  // Taking words out from before the clause leaves the clause.
  lemma CutBefore(u: seq<Tok>, x: seq<Tok>, k: nat, n: nat)
    requires k + n <= |u|
    ensures (u + x)[..k] + (u + x)[k + n..] == (u[..k] + u[k + n..]) + x
  {
  }

  lemma DeferExpiring(u: seq<Tok>, d: nat)
    requires u != [] && CommandEcho.Mute(u[|u| - 1]) && DeferPass(u).Ok?
    ensures DeferPass(u + ExpiresToks(d)) == Ok(DeferPass(u).value.(argv := DeferPass(u).value.argv + ExpiresToks(d)))
    ensures DeferPass(u).value.argv != []
  {
    hide IndexTok, OnClause, Inside, DeletesNumber, CommandEcho.Mute, ExpiresToks;
    var argv := u + ExpiresToks(d);
    SameDeletes(u, d);
    SameClauses(u, d, "in");
    SameClauses(u, d, "out");
    IndexExpiring(u, d, "in");
    IndexExpiring(u, d, "out");
    if OnClause(u, "in") && OnClause(u, "out") {
      var i, o := IndexTok(u, "in"), IndexTok(u, "out");
      var k := if i.value > o.value then i.value else o.value;
      assert argv[k + 2] == u[k + 2];
      CutBefore(u, ExpiresToks(d), k, 3);
    }
  }

  lemma SameDeletes(u: seq<Tok>, d: nat)
    ensures DeletesNumber(u + ExpiresToks(d)) <==> DeletesNumber(u)
  {
    var argv := u + ExpiresToks(d);
    assert forall i :: 0 <= i < |u| ==> argv[i] == u[i];
    assert argv[|u|] == Word("expires") && argv[|u| + 1] == Duration(d);
  }

  lemma SameClauses(u: seq<Tok>, d: nat, w: string)
    requires u != [] && CommandEcho.Mute(u[|u| - 1]) && (w == "in" || w == "out")
    ensures OnClause(u + ExpiresToks(d), w) <==> OnClause(u, w)
    ensures Inside(u + ExpiresToks(d), w) <==> Inside(u, w)
  {
    var argv := u + ExpiresToks(d);
    assert forall i :: 0 <= i < |u| ==> argv[i] == u[i];
    assert argv[|u|] == Word("expires") && argv[|u| + 1] == Duration(d);
    if OnClause(argv, w) {
      var i :| 0 < i < |argv| - 2 && argv[i] == Word(w) && argv[i + 1] == Word("on");
      assert i < |u| - 2;
    }
  }

  lemma IndexExpiring(u: seq<Tok>, d: nat, w: string)
    requires w != "expires"
    ensures IndexTok(u + ExpiresToks(d), w) == IndexTok(u, w)
  {
    var argv := u + ExpiresToks(d);
    assert forall i :: 0 <= i < |u| ==> argv[i] == u[i];
    assert argv[|u|] == Word("expires") && argv[|u| + 1] == Duration(d);
    var i := IndexTok(u, w);
    if i.Some? {
      assert argv[..i.value] == u[..i.value];
      FirstIs(argv, w, i.value);
    }
  }

  lemma RouteExpiring(args: seq<Tok>, d: nat)
    requires args != [] && CommandEcho.Mute(args[|args| - 1]) && RoutePass(args).Ok? && RoutePass(args).value.argv != []
    ensures RoutePass(args + ExpiresToks(d)) ==
            Ok(RoutePass(args).value.(argv := RoutePass(args).value.argv + ExpiresToks(d)))
  {
    hide DeferPass, CommandEcho.Mute, Lower;
    assert (args + ExpiresToks(d))[1..] == args[1..] + ExpiresToks(d);
    if LowerIs(args[0], "route") {
      DeferNothing();
      var u := args[1..];
      if u != [] && LowerIs(u[0], "rule") {
        assert (u + ExpiresToks(d))[1..] == u[1..] + ExpiresToks(d);
      }
      DeferExpiring(DropRule(u), d);
    }
  }

  lemma DeferNothing()
    ensures DeferPass([]) == Ok(Routing([], true, None))
  {
  }

  lemma DispatchExpiring(argv: seq<Tok>, d: nat)
    requires argv != [] && DispatchPass(argv).Ok? && DispatchPass(argv).value.Rest?
    ensures var q := DispatchPass(argv).value;
            DispatchPass(argv + ExpiresToks(d)) == Ok(q.(argv := q.argv + ExpiresToks(d)))
  {
    hide Lower;
    assert (argv + ExpiresToks(d))[1..] == argv[1..] + ExpiresToks(d);
    if |argv| >= 2 { assert (argv + ExpiresToks(d))[2..] == argv[2..] + ExpiresToks(d); }
  }

  // Two tokens the second of which is a word are no rule.
  lemma WordRefused(argv: seq<Tok>, d: Direction, routing: Routing, kind: Kind, num: nat, now: int)
    requires |argv| == 2 && argv[1].Word?
    ensures RestPass(argv, d, routing, kind, num, now).Err?
  {
    hide Lower, FinishPass, ActionOf, FoldSets, BodyPass, CommentPass, ExpiresPass;
    if IfacePass(argv).Ok? && LogPass(argv, false).Ok? && CommentPass(argv).Ok? {
      var c := CommentPass(argv).value;
      CommentShort(argv);
      if ExpiresPass(c.0, now).Ok? && FoldSets(ExpiresPass(c.0, now).value.0).Ok? {
        var e := ExpiresPass(c.0, now).value;
        ExpiresShort(c.0, now);
        FoldShort(e.0);
        if ActionOf(argv[0]).Some? {
          NoBody(Fresh(ActionOf(argv[0]).value, d, LogPass(argv, false).value.1, c.1, e.1), e.0, false);
        }
      }
    }
  }

  // At most two tokens, the second a word.
  predicate Stub(argv: seq<Tok>) { |argv| < 2 || (|argv| == 2 && argv[1].Word?) }

  lemma CommentShort(argv: seq<Tok>)
    requires Stub(argv) && CommentPass(argv).Ok?
    ensures Stub(CommentPass(argv).value.0)
  {
    hide IndexTok;
  }

  lemma ExpiresShort(argv: seq<Tok>, now: int)
    requires Stub(argv) && ExpiresPass(argv, now).Ok?
    ensures Stub(ExpiresPass(argv, now).value.0)
  {
    hide IndexTok;
  }

  lemma FoldShort(argv: seq<Tok>)
    requires Stub(argv) && FoldSets(argv).Ok?
    ensures FoldSets(argv).value == argv
  {
    if |argv| == 2 { assert FoldSets(argv[1..]) == Ok(argv[1..]); }
  }

  lemma NoBody(r: Rule, argv: seq<Tok>, hasIface: bool)
    requires Stub(argv)
    ensures BodyPass(r, argv, hasIface).Err?
  {
  }

  lemma DirExpiring(argv: seq<Tok>, d: nat)
    requires |argv| >= 2 && (|argv| == 2 ==> !argv[1].Word?)
    ensures DirPass(argv + ExpiresToks(d)) == (DirPass(argv).0 + ExpiresToks(d), DirPass(argv).1)
  {
    hide Lower;
    var all := argv + ExpiresToks(d);
    if |argv| > 2 { CutBefore(argv, ExpiresToks(d), 1, 1); }
  }

  lemma IfacePassExpiring(argv: seq<Tok>, d: nat)
    requires |argv| >= 2 && IfacePass(argv).Ok?
    ensures IfacePass(argv + ExpiresToks(d)) == Ok((IfacePass(argv).value.0 + ExpiresToks(d), IfacePass(argv).value.1))
    ensures IfacePass(argv).value.0 == argv || IsDirTok(IfacePass(argv).value.0[1])
    ensures |IfacePass(argv).value.0| >= 2
  {
    hide Lower;
    var all := argv + ExpiresToks(d);
    if |argv| >= 3 { CutBefore(argv, ExpiresToks(d), 2, 1); }
  }

  lemma LogPassExpiring(argv: seq<Tok>, hasIface: bool, d: nat)
    requires |argv| >= 2 && LogPass(argv, hasIface).Ok? && (|argv| == 2 ==> !IsLogTok(argv[1]))
    ensures LogPass(argv + ExpiresToks(d), hasIface) ==
            Ok((LogPass(argv, hasIface).value.0 + ExpiresToks(d), LogPass(argv, hasIface).value.1))
  {
    hide LogOf, IsLogTok, ExpiresToks;
    var all := argv + ExpiresToks(d);
    NoLogAfter(argv, d);
    var k := if hasIface && |argv| > 3
        && IsLogTok(argv[3]) then 3 else if |argv| > 2 && IsLogTok(argv[1]) then 1 else 0;
    assert forall i :: 0 <= i < |argv| ==> all[i] == argv[i];
    if k > 0 { CutBefore(argv, ExpiresToks(d), k, 1); }
    LogsBefore(if k > 0 then argv[..k] + argv[k + 1..] else argv, d);
  }

  lemma NoLogAfter(argv: seq<Tok>, d: nat)
    ensures var all := argv + ExpiresToks(d);
            |all| == |argv| + 2 && !IsLogTok(all[|argv|]) && !IsLogTok(all[|argv| + 1])
  {
    CommandEcho.LowerSame("expires");
    hide Lower;
  }

  lemma LogsBefore(argv: seq<Tok>, d: nat)
    ensures Word("log") in argv + ExpiresToks(d) <==> Word("log") in argv
    ensures Word("log-all") in argv + ExpiresToks(d) <==> Word("log-all") in argv
  {
  }

  lemma CommentExpiring(argv: seq<Tok>, d: nat)
    requires CommentPass(argv).Ok?
    ensures CommentPass(argv + ExpiresToks(d)) ==
            Ok((CommentPass(argv).value.0 + ExpiresToks(d), CommentPass(argv).value.1))
  {
    hide IndexTok, ExpiresToks;
    IndexExpiring(argv, d, "comment");
    var i := IndexTok(argv, "comment");
    if i.Some? { CutBefore(argv, ExpiresToks(d), i.value, 2); }
  }

  lemma ExpiresTaken(argv: seq<Tok>, d: nat, now: int)
    requires Word("expires") !in argv
    ensures ExpiresPass(argv, now) == Ok((argv, 0)) && ExpiresPass(argv + ExpiresToks(d), now) == Ok((argv, now + d))
  {
    hide IndexTok;
    var all := argv + ExpiresToks(d);
    assert all[..|argv|] == argv;
    FirstIs(all, "expires", |argv|);
    assert all[..|argv|] + all[|argv| + 2..] == argv;
  }

  // No pass adds the word.
  lemma HeadAddsNone(argv: seq<Tok>)
    requires Word("expires") !in argv
    ensures RoutePass(argv).Ok? ==> Word("expires") !in RoutePass(argv).value.argv
  {
    hide Lower, DeferPass;
    if argv != [] && LowerIs(argv[0], "route") { DeferAddsNone(DropRule(argv[1..])); }
  }

  lemma DeferAddsNone(argv: seq<Tok>)
    requires Word("expires") !in argv
    ensures DeferPass(argv).Ok? ==> Word("expires") !in DeferPass(argv).value.argv
  {
    hide IndexTok, OnClause, Inside, DeletesNumber;
  }

  lemma DispatchAddsNone(argv: seq<Tok>)
    requires Word("expires") !in argv && DispatchPass(argv).Ok? && DispatchPass(argv).value.Rest?
    ensures var t := DispatchPass(argv).value.argv;
            Word("expires") !in t && (|t| >= 2 ==> Word("expires") !in DirPass(t).0)
  {
    hide Lower;
  }

  lemma RestAddsNone(argv: seq<Tok>, hasIface: bool)
    requires Word("expires") !in argv
    ensures IfacePass(argv).Ok? ==> Word("expires") !in IfacePass(argv).value.0
    ensures LogPass(argv, hasIface).Ok? ==> Word("expires") !in LogPass(argv, hasIface).value.0
    ensures CommentPass(argv).Ok? ==> Word("expires") !in CommentPass(argv).value.0
  {
    hide Lower, IndexTok;
  }

  lemma RestExpiring(argv: seq<Tok>, dir: Direction, routing: Routing, kind: Kind, num: nat, d: nat, now: int)
    requires |argv| >= 2 && Word("expires") !in argv && RestPass(argv, dir, routing, kind, num, now).Ok?
    ensures RestPass(argv + ExpiresToks(d), dir, routing, kind, num, now) ==
            ExpiringOp(RestPass(argv, dir, routing, kind, num, now), now + d)
    ensures RestPass(argv, dir, routing, kind, num, now) ==
            ExpiringOp(RestPass(argv, dir, routing, kind, num, now), 0)
  {
    hide IfacePass, LogPass, CommentPass, ExpiresPass, FoldSets, BodyPass, FinishPass, ActionOf, ExpiresToks, RoutePass,
         DispatchPass, DirPass, Lower;
    if |argv| == 2 && argv[1].Word? { WordRefused(argv, dir, routing, kind, num, now); }
    var f := IfacePass(argv).value;
    IfacePassExpiring(argv, d);
    DirIsNoLog(f.0[1]);
    var l := LogPass(f.0, f.1).value;
    LogPassExpiring(f.0, f.1, d);
    var c := CommentPass(l.0).value;
    CommentExpiring(l.0, d);
    RestAddsNone(argv, f.1);
    RestAddsNone(f.0, f.1);
    RestAddsNone(l.0, f.1);
    ExpiresTaken(c.0, d, now);
    var s := FoldSets(c.0).value;
    var start := Fresh(ActionOf(argv[0]).value, dir, l.1, c.1, 0);
    BodyExpiring(start, s, f.1, now + d);
    BodyExpiring(start, s, f.1, 0);
    var b := BodyPass(start, s, f.1).value;
    FinishExpiring(b.0, b.1, routing, kind, num, now + d);
    FinishExpiring(b.0, b.1, routing, kind, num, 0);
  }

  lemma DirIsNoLog(t: Tok)
    ensures !(IsDirTok(t) && IsLogTok(t))
    ensures IsLogTok(t) ==> t.Word?
  {
  }

  // Behind the dispatch the routed tokens are not looked at again.
  lemma OtherTokens(argv: seq<Tok>, dir: Direction, routing: Routing, other: seq<Tok>, kind: Kind, num: nat, now: int)
    requires |argv| >= 1
    ensures RestPass(argv, dir, routing.(argv := other), kind, num, now) == RestPass(argv, dir, routing, kind, num, now)
  {
    hide IfacePass, LogPass, CommentPass, ExpiresPass, FoldSets, BodyPass, VerifyPass, Normal, Stamped, SetIface,
         ActionOf;
  }

  lemma SomeWords(args: seq<Tok>, now: int)
    requires args != [] && Parse(args, now).Ok?
    ensures RoutePass(args).value.argv != []
  {
    hide RoutePass, RestPass, DirPass;
  }

  lemma KeepTwo(argv: seq<Tok>, routing: Routing, kind: Kind, num: nat, now: int)
    requires |argv| >= 2 && RestPass(DirPass(argv).0, DirPass(argv).1, routing, kind, num, now).Ok?
    ensures |argv| == 2 ==> !argv[1].Word?
    ensures |DirPass(argv).0| >= 2
  {
    hide RestPass, Lower;
    if |argv| == 2 && argv[1].Word? { WordRefused(argv, DirPass(argv).1, routing, kind, num, now); }
  }

  // "expires" behind an accepted command without the word: the same
  // operation on the same rule, which ends that much later than now.
  lemma {:induction false} ExpiresReads(args: seq<Tok>, d: nat, now: int)
    requires args != [] && Parse(args, now).Ok? && Parse(args, now).value.RuleOp?
    requires Word("expires") !in args && CommandEcho.Mute(args[|args| - 1])
    ensures Parse(args, now).value.rule.expiresAt == 0
    ensures Parse(args + [Word("expires"), Duration(d)], now) ==
            (var op := Parse(args, now).value; Ok(op.(rule := op.rule.(expiresAt := now + d))))
  {
    hide RoutePass, DispatchPass, DirPass, RestPass, ActionOf, CommandEcho.Mute;
    var q := RoutePass(args).value;
    SomeWords(args, now);
    RouteExpiring(args, d);
    DispatchExpiring(q.argv, d);
    HeadAddsNone(args);
    DispatchAddsNone(q.argv);
    var t := DispatchPass(q.argv).value;
    KeepTwo(t.argv, q, t.kind, t.num, now);
    DirExpiring(t.argv, d);
    RestExpiring(DirPass(t.argv).0, DirPass(t.argv).1, q, t.kind, t.num, d, now);
    assert (t.argv + ExpiresToks(d))[0] == t.argv[0];
    OtherTokens(DirPass(t.argv).0 + ExpiresToks(d), DirPass(t.argv).1, q, q.argv + ExpiresToks(d), t.kind, t.num, now);
  }
}
