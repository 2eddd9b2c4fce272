/** What the words before the action say: which list operation a command
    line asks for, and that the rule behind them is read as without them. */
module CommandKinds {
  import opened Bytes
  import opened AddressSets
  import opened Outcomes
  import opened Rules
  import opened Normalization
  import opened Grammar
  import opened CanonicalCommand
  import CommandEcho

  // ---- what may stand before the action ----

  // "route", "rule", both in this order, or nothing, in any case.
  predicate Lead(p: seq<Tok>)
  {
    || p == []
    || (|p| == 1 && (LowerIs(p[0], "route") || LowerIs(p[0], "rule")))
    || (|p| == 2 && LowerIs(p[0], "route") && LowerIs(p[1], "rule"))
  }

  predicate Leads(p: seq<Tok>, t: seq<Tok>) { Lead(p) && t != [] && ActionOf(t[0]).Some? }

  // The same rule under another operation.
  function Under(r: Result<Op>, kind: Kind, num: nat): Result<Op>
  {
    if r.Ok? && r.value.RuleOp? then Ok(RuleOp(kind, num, r.value.rule, r.value.ipType)) else Err
  }

  // ---- words no pass before the dispatch looks at ----

  predicate Inert(pre: seq<Tok>)
  {
    forall i :: 0 <= i < |pre| ==>
      pre[i] != Word("in") && pre[i] != Word("out") && (pre[i] == Word("delete") ==> i == |pre| - 1)
  }

  lemma OnShifts(pre: seq<Tok>, t: seq<Tok>, w: string)
    requires Inert(pre) && t != [] && t[0] != Word(w) && (w == "in" || w == "out")
    ensures OnClause(pre + t, w) <==> OnClause(t, w)
    ensures pre != [] ==> (Inside(pre + t, w) <==> Inside(t, w))
  {
    var argv := pre + t;
    assert forall i :: 0 <= i < |pre| ==> argv[i] == pre[i];
    assert forall i :: 0 <= i < |t| ==> argv[|pre| + i] == t[i];
    if OnClause(t, w) {
      var i :| 0 < i < |t| - 2 && t[i] == Word(w) && t[i + 1] == Word("on");
      assert argv[|pre| + i] == Word(w) && argv[|pre| + i + 1] == Word("on");
    }
    if OnClause(argv, w) {
      var i :| 0 < i < |argv| - 2 && argv[i] == Word(w) && argv[i + 1] == Word("on");
      assert t[i - |pre|] == Word(w) && t[i - |pre| + 1] == Word("on");
    }
    if Inside(t, w) {
      var i :| 0 < i < |t| - 1 && t[i] == Word(w);
      assert argv[|pre| + i] == Word(w);
    }
    if Inside(argv, w) {
      var i :| 0 < i < |argv| - 1 && argv[i] == Word(w);
      assert t[i - |pre|] == Word(w);
    }
  }

  lemma DeletesShift(pre: seq<Tok>, t: seq<Tok>)
    requires Inert(pre) && t != [] && !Numeric(t[0])
    ensures DeletesNumber(pre + t) <==> DeletesNumber(t)
  {
    var argv := pre + t;
    assert forall i :: 0 <= i < |pre| ==> argv[i] == pre[i];
    assert forall i :: 0 <= i < |t| ==> argv[|pre| + i] == t[i];
    if DeletesNumber(t) {
      var i :| 0 <= i < |t| - 1 && t[i] == Word("delete") && Small(t[i + 1]);
      assert argv[|pre| + i] == Word("delete") && Small(argv[|pre| + i + 1]);
    }
    if DeletesNumber(argv) {
      var i :| 0 <= i < |argv| - 1 && argv[i] == Word("delete") && Small(argv[i + 1]);
      assert i >= |pre|;
      assert t[i - |pre|] == Word("delete") && Small(t[i - |pre| + 1]);
    }
  }

  lemma IndexShifts(pre: seq<Tok>, t: seq<Tok>, w: string)
    requires Inert(pre) && (w == "in" || w == "out")
    ensures IndexTok(pre + t, w) == (var i := IndexTok(t, w); if i.None? then None else Some(|pre| + i.value))
  {
    hide IndexTok;
    var argv := pre + t;
    var i := IndexTok(t, w);
    assert Word(w) !in pre;
    if i.Some? {
      assert argv[|pre| + i.value] == t[i.value];
      assert argv[..|pre| + i.value] == pre + t[..i.value];
      FirstIs(argv, w, |pre| + i.value);
    }
  }

  // Inert words stay in front through the deferred interface clause.
  function Ahead(pre: seq<Tok>, r: Result<Routing>): Result<Routing>
  {
    if r.Err? then Err else Ok(r.value.(argv := pre + r.value.argv))
  }

  lemma CutBehind(pre: seq<Tok>, t: seq<Tok>, k: nat)
    requires k + 3 <= |t|
    ensures (pre + t)[..|pre| + k] + (pre + t)[|pre| + k + 3..] == pre + (t[..k] + t[k + 3..])
  {
  }

  lemma DeferShifts(pre: seq<Tok>, t: seq<Tok>)
    requires Inert(pre) && t != [] && ActionOf(t[0]).Some?
    ensures DeferPass(pre + t) == Ahead(pre, DeferPass(t))
  {
    hide OnClause, Inside, DeletesNumber, IndexTok;
    if pre == [] {
      assert pre + t == t;
      if DeferPass(t).Ok? { assert pre + DeferPass(t).value.argv == DeferPass(t).value.argv; }
    } else {
      DeletesShift(pre, t);
      OnShifts(pre, t, "in");
      OnShifts(pre, t, "out");
      IndexShifts(pre, t, "in");
      IndexShifts(pre, t, "out");
      var i, o := IndexTok(t, "in"), IndexTok(t, "out");
      if i.Some? && o.Some? {
        var k := if i.value > o.value then i.value else o.value;
        var argv := pre + t;
        if k + 2 < |t| {
          assert argv[|pre| + k + 2] == t[k + 2];
          CutBehind(pre, t, k);
        }
      }
    }
  }

  // The action stays first.
  lemma DeferKeepsFirst(t: seq<Tok>)
    requires t != [] && ActionOf(t[0]).Some? && DeferPass(t).Ok?
    ensures var argv := DeferPass(t).value.argv; argv != [] && argv[0] == t[0]
  {
    hide OnClause, Inside, DeletesNumber;
  }

  lemma RouteSkips(p: seq<Tok>, u: seq<Tok>)
    requires Lead(p) && u != [] && !LowerIs(u[0], "route") && !LowerIs(u[0], "rule")
    ensures RoutePass(p + u) ==
            if p != [] && LowerIs(p[0], "route") then DeferPass(u) else Ok(Routing(u, false, None))
  {
    hide DeferPass, Lower;
    var args := p + u;
    if p == [] {
      assert args == u;
    } else if |p| == 1 {
      assert args[1..] == u;
    } else {
      assert args[1..] == [p[1]] + u && args[1..][1..] == u;
    }
  }

  lemma ActionTok(t: Tok)
    requires ActionOf(t).Some?
    ensures t.Word? && t != Word("in") && t != Word("out") && !LowerIs(t, "route") && !LowerIs(t, "rule")
    ensures !LowerIs(t, "delete") && !LowerIs(t, "insert") && !LowerIs(t, "prepend") && !Numeric(t)
  {
    var a := ActionOf(t).value;
    assert t == Word(ActionText(a));
    CommandEcho.ActionWords(a);
  }

  lemma RouteKeeps(p: seq<Tok>, pre: seq<Tok>, t: seq<Tok>)
    requires Leads(p, t) && Inert(pre)
    requires pre != [] ==> !LowerIs(pre[0], "route") && !LowerIs(pre[0], "rule")
    ensures RoutePass(p + (pre + t)) == Ahead(pre, RoutePass(p + t))
    ensures RoutePass(p + t).Ok? ==>
              RoutePass(p + t).value.argv != [] && ActionOf(RoutePass(p + t).value.argv[0]).Some?
  {
    hide DeferPass, Lower, ActionOf, Inert, RoutePass;
    ActionTok(t[0]);
    RouteSkips(p, pre + t);
    RouteSkips(p, t);
    DeferShifts(pre, t);
    if DeferPass(t).Ok? { DeferKeepsFirst(t); }
  }

  // ---- what follows the dispatch ----

  // Only the operation is copied from the first words.
  lemma RestUnder(argv: seq<Tok>, d: Direction, routing: Routing, other: Routing, kind: Kind, num: nat, now: int)
    requires |argv| >= 1 && routing.routed == other.routed && routing.deferred == other.deferred
    ensures RestPass(argv, d, other, kind, num, now) == Under(RestPass(argv, d, routing, Add, 0, now), kind, num)
  {
    hide IfacePass, LogPass, CommentPass, ExpiresPass, FoldSets, BodyPass, VerifyPass, Normal, Stamped, SetIface,
         ActionOf;
  }

  // What Parse does once the operation and the remaining words are known.
  function Tail(argv: seq<Tok>, routing: Routing, kind: Kind, num: nat, now: int): Result<Op>
  {
    if |argv| < 2 || ActionOf(argv[0]).None? then Err
    else RestPass(DirPass(argv).0, DirPass(argv).1, routing, kind, num, now)
  }

  lemma TailUnder(argv: seq<Tok>, routing: Routing, other: Routing, kind: Kind, num: nat, now: int)
    requires routing.routed == other.routed && routing.deferred == other.deferred
    ensures Tail(argv, other, kind, num, now) == Under(Tail(argv, routing, Add, 0, now), kind, num)
    ensures Tail(argv, routing, Add, 0, now).Ok? ==> |argv| >= 2
  {
    hide RestPass, ActionOf;
    if |argv| >= 2 { RestUnder(DirPass(argv).0, DirPass(argv).1, routing, other, kind, num, now); }
  }

  lemma PlainTail(p: seq<Tok>, t: seq<Tok>, now: int)
    requires Leads(p, t)
    ensures var q := RoutePass(p + t);
            Parse(p + t, now) == if q.Err? then Err else Tail(q.value.argv, q.value, Add, 0, now)
  {
    hide RoutePass, RestPass, DirPass, ActionOf, Lower;
    RouteKeeps(p, [], t);
    var q := RoutePass(p + t);
    if q.Ok? { ActionTok(q.value.argv[0]); }
  }

  // ---- the operations ----

  // "delete" and a rule: the rule is read as without the word, and deleted.
  lemma {:induction false} DeleteReads(p: seq<Tok>, w: Tok, t: seq<Tok>, now: int)
    requires Leads(p, t) && LowerIs(w, "delete")
    ensures Parse(p + ([w] + t), now) == Under(Parse(p + t, now), Delete, 0)
  {
    hide RoutePass, Tail, ActionOf, DispatchPass;
    KeywordInert(w);
    RouteKeeps(p, [w], t);
    PlainTail(p, t, now);
    var q := RoutePass(p + t);
    if q.Ok? {
      ActionTok(q.value.argv[0]);
      DeleteDispatch(w, q.value.argv);
      ParseTail(p + ([w] + t), Delete, 0, q.value.argv, now);
      TailUnder(q.value.argv, q.value, RoutePass(p + ([w] + t)).value, Delete, 0, now);
    }
  }

  lemma KeywordInert(w: Tok)
    requires LowerIs(w, "delete") || LowerIs(w, "insert") || LowerIs(w, "prepend")
    ensures Inert([w]) && !LowerIs(w, "route") && !LowerIs(w, "rule")
    ensures forall x :: Numeric(x) && !LowerIs(w, "delete") ==> Inert([w, x])
  {
    CommandEcho.LowerSame("in");
    CommandEcho.LowerSame("out");
    CommandEcho.LowerSame("delete");
  }

  lemma DeleteDispatch(w: Tok, argv: seq<Tok>)
    requires LowerIs(w, "delete") && argv != [] && !Numeric(argv[0])
    ensures DispatchPass([w] + argv) == Ok(Rest(Delete, 0, argv))
  {
    hide Lower;
    assert ([w] + argv)[1..] == argv;
  }

  lemma ParseTail(args: seq<Tok>, kind: Kind, num: nat, argv: seq<Tok>, now: int)
    requires RoutePass(args).Ok? && DispatchPass(RoutePass(args).value.argv) == Ok(Rest(kind, num, argv))
    ensures Parse(args, now) == Tail(argv, RoutePass(args).value, kind, num, now)
  {
    hide RoutePass, DispatchPass, RestPass, DirPass, ActionOf;
  }

  lemma {:induction false} PrependReads(p: seq<Tok>, w: Tok, t: seq<Tok>, now: int)
    requires Leads(p, t) && LowerIs(w, "prepend")
    ensures Parse(p + ([w] + t), now) == Under(Parse(p + t, now), Prepend, 0)
  {
    hide RoutePass, Tail, ActionOf, DispatchPass;
    KeywordInert(w);
    RouteKeeps(p, [w], t);
    PlainTail(p, t, now);
    var q := RoutePass(p + t);
    if q.Ok? {
      PrependDispatch(w, q.value.argv);
      ParseTail(p + ([w] + t), Prepend, 0, q.value.argv, now);
      TailUnder(q.value.argv, q.value, RoutePass(p + ([w] + t)).value, Prepend, 0, now);
    }
  }

  lemma PrependDispatch(w: Tok, argv: seq<Tok>)
    requires LowerIs(w, "prepend") && argv != []
    ensures DispatchPass([w] + argv) == Ok(Rest(Prepend, 0, argv))
  {
    hide Lower;
    assert ([w] + argv)[1..] == argv;
  }

  // "insert N" and a rule: accepted exactly when N is a number and the rule
  // is accepted; numbers beyond the machine's int count as the largest.
  lemma {:induction false} InsertReads(p: seq<Tok>, w: Tok, x: Tok, t: seq<Tok>, now: int)
    requires Leads(p, t) && LowerIs(w, "insert")
    ensures Parse(p + ([w, x] + t), now) ==
            if Numeric(x) then
              Under(Parse(p + t, now), Insert, if x.spans[0].lo <= MaxInt then x.spans[0].lo else MaxInt)
            else Err
  {
    hide RoutePass, Tail, ActionOf, DispatchPass;
    if Numeric(x) {
      KeywordInert(w);
      NotDelete(w);
      RouteKeeps(p, [w, x], t);
      PlainTail(p, t, now);
      var q := RoutePass(p + t);
      if q.Ok? {
        InsertDispatch(w, x, q.value.argv);
        if |q.value.argv| >= 2 {
          ParseTail(p + ([w, x] + t), Insert, PositionOf(x), q.value.argv, now);
          TailUnder(q.value.argv, q.value, RoutePass(p + ([w, x] + t)).value, Insert, PositionOf(x), now);
        } else {
          ShortTail(q.value.argv, q.value, now);
        }
      }
    } else {
      NoPosition(p, w, x, t);
    }
  }

  lemma ShortTail(argv: seq<Tok>, routing: Routing, now: int)
    requires |argv| < 2
    ensures Tail(argv, routing, Add, 0, now) == Err
  {
  }

  lemma InsertDispatch(w: Tok, x: Tok, argv: seq<Tok>)
    requires LowerIs(w, "insert") && Numeric(x)
    ensures DispatchPass([w, x] + argv) == if |argv| >= 2 then Ok(Rest(Insert, PositionOf(x), argv)) else Err
  {
    hide Lower;
    var all := [w, x] + argv;
    assert all[2..] == argv && all[0] == w && all[1] == x;
  }

  lemma NotDelete(w: Tok)
    requires LowerIs(w, "insert")
    ensures !LowerIs(w, "delete")
  {
  }

  // A word in place of the number stays there and is refused.
  lemma NoPosition(p: seq<Tok>, w: Tok, x: Tok, t: seq<Tok>)
    requires Lead(p) && LowerIs(w, "insert") && !Numeric(x)
    ensures var q := RoutePass(p + ([w, x] + t)); q.Ok? ==> DispatchPass(q.value.argv) == Err
  {
    hide DeferPass, Lower;
    KeywordInert(w);
    var u := [w, x] + t;
    RouteSkips(p, u);
    DeferKeepsTwo(u);
  }

  lemma DeferKeepsTwo(u: seq<Tok>)
    requires |u| >= 2 && u[0] != Word("in") && u[0] != Word("out")
    ensures DeferPass(u).Ok? ==> |DeferPass(u).value.argv| >= 2 && DeferPass(u).value.argv[..2] == u[..2]
  {
    hide OnClause, Inside, DeletesNumber;
    if DeferPass(u).Ok? && OnClause(u, "in") && OnClause(u, "out") {
      var i, o := IndexTok(u, "in"), IndexTok(u, "out");
      var k := if i.value > o.value then i.value else o.value;
      assert k >= 2;
      assert (u[..k] + u[k + 3..])[..2] == u[..2];
    }
  }

  // ---- deleting by number ----

  lemma NumberLead(p: seq<Tok>, u: seq<Tok>)
    requires (p == [] || (|p| == 1 && LowerIs(p[0], "rule"))) && u != [] && !LowerIs(u[0], "route")
             && !LowerIs(u[0], "rule")
    ensures RoutePass(p + u) == Ok(Routing(u, false, None))
  {
    hide DeferPass, Lower;
    RouteSkips(p, u);
  }

  // "delete N" names a rule by its number; what follows is not read.
  lemma {:induction false} DeleteNumber(p: seq<Tok>, w: Tok, x: Tok, rest: seq<Tok>, now: int)
    requires (p == [] || (|p| == 1 && LowerIs(p[0], "rule"))) && LowerIs(w, "delete") && Numeric(x)
    ensures Parse(p + ([w, x] + rest), now) == if x.spans[0].lo <= MaxInt then Ok(RuleNumber(x.spans[0].lo)) else Err
  {
    hide RoutePass, RestPass, DirPass, Lower;
    KeywordInert(w);
    var u := [w, x] + rest;
    NumberLead(p, u);
    assert u[0] == w && u[1] == x && u[1..][0] == x;
    assert ActionOf(x).None?;
  }

  // Behind "route" a number is refused.
  lemma {:induction false} RouteDeleteNumber(p: seq<Tok>, x: Tok, rest: seq<Tok>, now: int)
    requires Lead(p) && p != [] && LowerIs(p[0], "route") && Small(x)
    ensures Parse(p + ([Word("delete"), x] + rest), now).Err?
  {
    hide Lower;
    CommandEcho.LowerSame("delete");
    var u := [Word("delete"), x] + rest;
    RouteSkips(p, u);
    assert u[0] == Word("delete") && u[1] == x;
  }

  // ---- no other command line is accepted ----

  // The words before the operation.
  function LeadOf(args: seq<Tok>): (p: seq<Tok>)
    ensures Lead(p) && |p| <= |args| && p == args[..|p|]
  {
    if args != [] && LowerIs(args[0], "route") then
      if |args| > 1 && LowerIs(args[1], "rule") then args[..2] else args[..1]
    else if args != [] && LowerIs(args[0], "rule") then args[..1] else []
  }

  // An action, or one of the three words and what it needs before the action.
  predicate Opens(u: seq<Tok>)
  {
    && u != []
    && (|| ActionOf(u[0]).Some?
        || (|u| >= 2 && LowerIs(u[0], "delete") && (Small(u[1]) || ActionOf(u[1]).Some?))
        || (|u| >= 2 && LowerIs(u[0], "prepend") && ActionOf(u[1]).Some?)
        || (|u| >= 3 && LowerIs(u[0], "insert") && Numeric(u[1]) && ActionOf(u[2]).Some?))
  }

  lemma {:induction false} OnlyTheseForms(args: seq<Tok>, now: int)
    requires Parse(args, now).Ok?
    ensures Opens(args[|LeadOf(args)|..])
  {
    hide DeferPass, RestPass, DirPass, Lower, ActionOf, DispatchPass;
    var p := LeadOf(args);
    var u := args[|p|..];
    LeadSkips(args);
    var argv := RoutePass(args).value.argv;
    if argv == u {
      OpensPlain(argv);
    } else {
      assert DeferPass(u).Ok?;
      DeferKeepsWords(u);
      OpensPlain(argv);
      OpensKept(argv, u);
    }
  }

  lemma LeadSkips(args: seq<Tok>)
    ensures var p := LeadOf(args);
            RoutePass(args) == if p != [] && LowerIs(p[0], "route") then DeferPass(args[|p|..])
                               else Ok(Routing(args[|p|..], false, None))
  {
    hide DeferPass, Lower;
    if args != [] && LowerIs(args[0], "route") && |args| > 1 && LowerIs(args[1], "rule") {
      assert args[1..][1..] == args[2..];
    }
  }

  lemma OpensPlain(argv: seq<Tok>)
    requires var d := DispatchPass(argv);
             d.Ok? && (d.value.Rest? ==> |d.value.argv| >= 2 && ActionOf(d.value.argv[0]).Some?)
    ensures Opens(argv)
  {
    hide Lower;
  }

  predicate PlainTo(argv: seq<Tok>, j: nat)
    requires j <= |argv|
  {
    forall i :: 0 <= i < j ==> argv[i] != Word("in") && argv[i] != Word("out")
  }

  // The interface clause taken out does not open with one of the words kept.
  lemma DeferKeepsWords(u: seq<Tok>)
    requires DeferPass(u).Ok?
    ensures var argv := DeferPass(u).value.argv;
            |argv| <= |u| && forall j :: 0 <= j < |argv| && PlainTo(argv, j) ==> argv[j] == u[j]
  {
    hide OnClause, Inside, DeletesNumber;
    if OnClause(u, "in") && OnClause(u, "out") {
      var i, o := IndexTok(u, "in"), IndexTok(u, "out");
      var m, k := if i.value > o.value then o.value else i.value, if i.value > o.value then i.value else o.value;
      var argv := DeferPass(u).value.argv;
      assert argv == u[..k] + u[k + 3..] && m < k && argv[m] in {Word("in"), Word("out")};
    }
  }

  lemma OpensKept(argv: seq<Tok>, u: seq<Tok>)
    requires Opens(argv) && |argv| <= |u|
    requires forall j :: 0 <= j < |argv| && PlainTo(argv, j) ==> argv[j] == u[j]
    ensures Opens(u)
  {
    CommandEcho.LowerSame("in");
    CommandEcho.LowerSame("out");
    assert PlainTo(argv, 0);
    assert |argv| >= 2 && argv[0] !in {Word("in"), Word("out")} ==> PlainTo(argv, 1);
    assert |argv| >= 3 && argv[0] !in {Word("in"), Word("out")} && argv[1] !in {Word("in"), Word("out")} ==>
        PlainTo(argv, 2);
  }

  // ---- echoes behind these words ----

  function Route(r: Rule): seq<Tok> { if r.Forward() then [Word("route")] else [] }

  // The canonical command from its action on.
  function FromAction(r: Rule): seq<Tok>
  {
    [Word(ActionText(r.action))] + (DirToks(r) + (LogToks(r.log) + (BodyToks(r) + CommentToks(r.comment))))
  }

  // The echo of a rule behind "delete", "prepend" or "insert N" asks for
  // that operation on the rule.
  lemma {:induction false} EchoOperations(r: Rule, x: Tok, now: int)
    requires Shaped(r) && WildAsAny(r) && FreeNames(r) && Readable(r) && Small(x)
    ensures var q, f := CommandEcho.Anonymous(Redirected(r)), CommandEcho.Family(r);
            && Command(r) == Route(r) + FromAction(r)
            && Parse(Route(r) + FromAction(r), now) == Ok(RuleOp(Add, 0, q, f))
            && Parse(Route(r) + ([Word("delete")] + FromAction(r)), now) == Ok(RuleOp(Delete, 0, q, f))
            && Parse(Route(r) + ([Word("prepend")] + FromAction(r)), now) == Ok(RuleOp(Prepend, 0, q, f))
            && Parse(Route(r) + ([Word("insert"), x] + FromAction(r)), now) ==
               Ok(RuleOp(Insert, x.spans[0].lo, q, f))
  {
    hide Shaped, WildAsAny, FreeNames, Readable, Parse, Lower, ActionText, ActionOf, DirToks, LogToks, BodyToks,
         CommentToks, CommandEcho.Family;
    CommandEcho.EchoParses(r, now);
    CommandEcho.KnownAction(r);
    CommandEcho.ActionWords(r.action);
    CommandEcho.LowerSame("route");
    CommandEcho.LowerSame("delete");
    CommandEcho.LowerSame("prepend");
    CommandEcho.LowerSame("insert");
    var p, t := Route(r), FromAction(r);
    assert Leads(p, t);
    DeleteReads(p, Word("delete"), t, now);
    PrependReads(p, Word("prepend"), t, now);
    InsertReads(p, Word("insert"), x, t, now);
  }
}
