/** Which log lines a packet leaves behind: the lines a chain prints, and how
    they add up along rules, jumps and logging chains. */
module LogLines {
  import opened Bytes
  import opened AddressSets
  import opened Outcomes
  import opened Rules
  import opened Netfilter
  import opened Matching
  import opened RuleCompiler
  import opened BuiltinChains

  // ---- the lines a chain prints ----

  ghost function ExprLines(es: NftRule, p: Packet, env: Env, regs: Regs, t: nat): seq<string>
  {
    if es == [] then []
    else
      match Exec(es[0], p, env, regs, t)
      case Go(regs', t') =>
        (if es[0].LogPrefix? then [es[0].prefix] else []) + ExprLines(es[1..], p, env, regs', t')
      case _ => []
  }

  ghost function ChainLines(rules: seq<NftRule>, depth: nat, p: Packet, env: Env, t: nat): seq<string>
    decreases depth, |rules|
  {
    if rules == [] then []
    else
      var lines := ExprLines(rules[0], p, env, map[], t);
      match RunExprs(rules[0], p, env, map[], t)
      case Break(t') => lines + ChainLines(rules[1..], depth, p, env, t')
      case Go(_, t') => lines + ChainLines(rules[1..], depth, p, env, t')
      case Stop(v, t') =>
        match v
        case Jump(c) =>
          if c !in env.chains || depth == 0 then lines
          else
            var o := RunChain(env.chains[c], depth - 1, p, env, t');
            lines + ChainLines(env.chains[c], depth - 1, p, env, t')
            + if o.Fell? || o.Returned? then ChainLines(rules[1..], depth, p, env, o.t) else []
        case _ => lines
  }

  lemma {:induction false} ExprLinesAppend(a: NftRule, b: NftRule, p: Packet, env: Env, regs: Regs, t: nat)
    ensures var f := RunExprs(a, p, env, regs, t);
            ExprLines(a + b, p, env, regs, t) ==
            ExprLines(a, p, env, regs, t) + if f.Go? then ExprLines(b, p, env, f.regs, f.t) else []
  {
    hide Exec, ExprLines, RunExprs;
    NoExprs(p, env, regs, t);
    if a == [] {
      assert a + b == b;
    } else {
      assert (a + b)[0] == a[0] && (a + b)[1..] == a[1..] + b;
      FirstExpr(a, p, env, regs, t);
      FirstExpr(a + b, p, env, regs, t);
      match Exec(a[0], p, env, regs, t)
      case Go(regs', t') => ExprLinesAppend(a[1..], b, p, env, regs', t');
      case _ =>
    }
  }

  lemma NoExprs(p: Packet, env: Env, regs: Regs, t: nat)
    ensures ExprLines([], p, env, regs, t) == [] && RunExprs([], p, env, regs, t) == Go(regs, t)
  {
  }

  lemma FirstExpr(es: NftRule, p: Packet, env: Env, regs: Regs, t: nat)
    requires es != []
    ensures match Exec(es[0], p, env, regs, t)
            case Go(regs', t') =>
              && ExprLines(es, p, env, regs, t) ==
                 (if es[0].LogPrefix? then [es[0].prefix] else []) + ExprLines(es[1..], p, env, regs', t')
              && RunExprs(es, p, env, regs, t) == RunExprs(es[1..], p, env, regs', t')
            case other => ExprLines(es, p, env, regs, t) == [] && RunExprs(es, p, env, regs, t) == other
  {
    hide Exec;
  }

  predicate Quiet(es: NftRule) { forall j :: 0 <= j < |es| ==> !es[j].LogPrefix? }

  lemma {:induction false} QuietPrints(es: NftRule, p: Packet, env: Env, regs: Regs, t: nat)
    requires Quiet(es)
    ensures ExprLines(es, p, env, regs, t) == []
  {
    hide Exec;
    if es != [] {
      match Exec(es[0], p, env, regs, t)
      case Go(regs', t') => QuietPrints(es[1..], p, env, regs', t');
      case _ =>
    }
  }

  lemma {:induction false} ChainLinesAppend(a: seq<NftRule>, b: seq<NftRule>, depth: nat, p: Packet, env: Env, t: nat)
    ensures var o := RunChain(a, depth, p, env, t);
            ChainLines(a + b, depth, p, env, t) ==
            ChainLines(a, depth, p, env, t) + if o.Fell? then ChainLines(b, depth, p, env, o.t) else []
    decreases |a|
  {
    hide RunExprs, ExprLines;
    if a == [] {
      assert a + b == b;
    } else {
      assert (a + b)[0] == a[0] && (a + b)[1..] == a[1..] + b;
      match RunExprs(a[0], p, env, map[], t)
      case Break(t') => ChainLinesAppend(a[1..], b, depth, p, env, t');
      case Go(_, t') => ChainLinesAppend(a[1..], b, depth, p, env, t');
      case Stop(v, t') =>
        if v.Jump? && v.target in env.chains && depth > 0 {
          var o := RunChain(env.chains[v.target], depth - 1, p, env, t');
          ChainLinesAppend(a[1..], b, depth, p, env, o.t);
        }
    }
  }

  lemma LinesSingle(rule: NftRule, depth: nat, p: Packet, env: Env, t: nat)
    ensures ChainLines([rule], depth, p, env, t) ==
            ExprLines(rule, p, env, map[], t)
            + match RunExprs(rule, p, env, map[], t)
              case Stop(v, t') =>
                if v.Jump? && v.target in env.chains && depth > 0 then
                  ChainLines(env.chains[v.target], depth - 1, p, env, t')
                else []
              case _ => []
  {
    hide RunExprs, ExprLines;
    assert [rule][1..] == [];
  }

  // ---- rules that always print the same ----

  // How a list of rules ends.
  datatype End = Falls | Back | Done

  predicate EndsAs(o: Outcome, e: End)
  {
    match e
    case Falls => o.Fell?
    case Back => o.Returned?
    case Done => o.Decided?
  }

  // Every rate limit lets the packet through, or none does.
  ghost predicate Steady(env: Env, rate: bool) { forall t: nat :: env.limit(t) == rate }

  // The rules print these lines and end like this.
  ghost predicate Prints(rules: seq<NftRule>, lines: seq<string>, e: End, depth: nat, p: Packet, env: Env)
  {
    forall t: nat ::
      EndsAs(RunChain(rules, depth, p, env, t), e) && ChainLines(rules, depth, p, env, t) == lines
  }

  lemma PrintsNothing(depth: nat, p: Packet, env: Env)
    ensures Prints([], [], Falls, depth, p, env)
  {
  }

  lemma PrintsAppend(a: seq<NftRule>, la: seq<string>, ea: End, b: seq<NftRule>, lb: seq<string>, eb: End, depth: nat,
      p: Packet, env: Env)
    requires Prints(a, la, ea, depth, p, env) && (ea == Falls ==> Prints(b, lb, eb, depth, p, env))
    ensures if ea == Falls then Prints(a + b, la + lb, eb, depth, p, env) else Prints(a + b, la, ea, depth, p, env)
  {
    hide RunChain, ChainLines;
    forall t: nat
      ensures EndsAs(RunChain(a + b, depth, p, env, t), if ea == Falls then eb else ea)
              && ChainLines(a + b, depth, p, env, t) == if ea == Falls then la + lb else la
    {
      RunChainAppend(a, b, depth, p, env, t);
      ChainLinesAppend(a, b, depth, p, env, t);
      assert EndsAs(RunChain(a, depth, p, env, t), ea);
    }
  }

  // What a rule does behind its match.
  datatype Tail = Line(prefix: string) | Verdict(verdict: Verdict)

  function TailExprs(limits: NftRule, tail: Tail): NftRule
  {
    limits + match tail
             case Line(prefix) => [LogPrefix(prefix)]
             case Verdict(v) => [Counter, Expr.Verdict(v)]
  }

  predicate RateLimits(limits: NftRule) { limits == [] || (|limits| == 1 && limits[0].RateLimit?) }

  lemma TailRuns(limits: NftRule, tail: Tail, p: Packet, env: Env, rate: bool, regs: Regs, t: nat)
    requires RateLimits(limits) && Steady(env, rate)
    ensures var f, passed := RunExprs(TailExprs(limits, tail), p, env, regs, t), limits == [] || rate;
            && (if !passed then f.Break? else if tail.Line? then f.Go? else f.Stop? && f.verdict == tail.verdict)
            && ExprLines(TailExprs(limits, tail), p, env, regs, t) ==
               (if passed && tail.Line? then [tail.prefix] else [])
  {
    var rest := match tail
      case Line(prefix) => [LogPrefix(prefix)]
      case Verdict(v) => [Counter, Expr.Verdict(v)];
    RunExprsAppend(limits, rest, p, env, regs, t);
    ExprLinesAppend(limits, rest, p, env, regs, t);
    RestRuns(rest, tail, p, env, regs, t);
    if limits == [] {
      assert limits + rest == rest;
    } else {
      assert limits[1..] == [] && env.limit(t) == rate;
      RestRuns(rest, tail, p, env, regs, t + 1);
    }
  }

  lemma RestRuns(rest: NftRule, tail: Tail, p: Packet, env: Env, regs: Regs, t: nat)
    requires rest == match tail
                     case Line(prefix) => [LogPrefix(prefix)]
                     case Verdict(v) => [Counter, Expr.Verdict(v)]
    ensures var f := RunExprs(rest, p, env, regs, t);
            && (if tail.Line? then f.Go? else f.Stop? && f.verdict == tail.verdict)
            && ExprLines(rest, p, env, regs, t) == (if tail.Line? then [tail.prefix] else [])
  {
    assert rest[1..] == if tail.Line? then [] else [rest[1]];
    if tail.Verdict? {
      assert rest[1..][1..] == [];
      assert ExprLines(rest[1..], p, env, regs, t) == [];
    } else {
      assert ExprLines(rest[1..], p, env, regs, t) == [];
    }
  }

  // How a jump or a verdict ends the list.
  function EndOf(v: Verdict, target: End): End
  {
    match v
    case Return => Back
    case Jump(_) => if target == Done then Done else Falls
    case _ => Done
  }

  // One rule: a match, perhaps a rate limit, and a line or a verdict.
  lemma RulePrints(exprs: NftRule, cond: bool, limits: NftRule, tail: Tail, lines: seq<string>, target: End, rate: bool,
      depth: nat, p: Packet, env: Env)
    requires Tests(exprs, cond, p, env) && Quiet(exprs) && RateLimits(limits) && Steady(env, rate)
    requires tail.Verdict? && tail.verdict.Jump? ==>
               && tail.verdict.target in env.chains && depth > 0
               && Prints(env.chains[tail.verdict.target], lines, target, depth - 1, p, env)
    ensures var passed := cond && (limits == [] || rate);
            Prints([exprs + TailExprs(limits, tail)],
                   if !passed then [] else if tail.Line? then [tail.prefix]
                   else if tail.verdict.Jump? then lines else [],
                   if !passed || tail.Line? then Falls else EndOf(tail.verdict, target), depth, p, env)
  {
    hide RunExprs, Tests, RunChain, ChainLines, ExprLines, TailExprs, Steady;
    var rest := TailExprs(limits, tail);
    forall t: nat
      ensures var passed := cond && (limits == [] || rate);
              var o := RunChain([exprs + rest], depth, p, env, t);
              && EndsAs(o, if !passed || tail.Line? then Falls else EndOf(tail.verdict, target))
              && ChainLines([exprs + rest], depth, p, env, t) ==
                 if !passed then [] else if tail.Line? then [tail.prefix] else if tail.verdict.Jump? then lines else []
    {
      RuleRuns(exprs, cond, limits, tail, rate, p, env, t);
      RunSingle(exprs + rest, depth, p, env, t);
      LinesSingle(exprs + rest, depth, p, env, t);
    }
  }

  lemma RuleRuns(exprs: NftRule, cond: bool, limits: NftRule, tail: Tail, rate: bool, p: Packet, env: Env, t: nat)
    requires Tests(exprs, cond, p, env) && Quiet(exprs) && RateLimits(limits) && Steady(env, rate)
    ensures var rule, passed := exprs + TailExprs(limits, tail), cond && (limits == [] || rate);
            var f := RunExprs(rule, p, env, map[], t);
            && (if !passed then f.Break? else if tail.Line? then f.Go? else f.Stop? && f.verdict == tail.verdict)
            && ExprLines(rule, p, env, map[], t) == (if passed && tail.Line? then [tail.prefix] else [])
  {
    hide RunExprs, ExprLines, TailExprs, Steady;
    var rest := TailExprs(limits, tail);
    RunExprsAppend(exprs, rest, p, env, map[], t);
    ExprLinesAppend(exprs, rest, p, env, map[], t);
    QuietPrints(exprs, p, env, map[], t);
    var f := RunExprs(exprs, p, env, map[], t);
    assert TestFlow(f, cond, t);
    if cond { TailRuns(limits, tail, p, env, rate, f.regs, f.t); }
  }
}
