/** The unified diff between two rulesets: a longest-common-subsequence
    table, the edit script it yields, and the hunks that carry the script. */
module UnifiedDiff {
  import opened Outcomes

  type Line = string

  // ---- longest common subsequences ----

  ghost predicate Sub(s: seq<Line>, a: seq<Line>)
  {
    s == [] || (a != [] && ((s[0] == a[0] && Sub(s[1..], a[1..])) || Sub(s, a[1..])))
  }

  ghost function Lcs(a: seq<Line>, b: seq<Line>): nat
    decreases |a| + |b|
  {
    if a == [] || b == [] then 0
    else if a[0] == b[0] then Lcs(a[1..], b[1..]) + 1
    else if Lcs(a[1..], b) >= Lcs(a, b[1..]) then Lcs(a[1..], b)
    else Lcs(a, b[1..])
  }

  lemma {:induction false} SubTail(s: seq<Line>, a: seq<Line>)
    requires s != [] && Sub(s, a)
    ensures Sub(s[1..], a) && a != [] && Sub(s[1..], a[1..])
  {
    if s[0] == a[0] && Sub(s[1..], a[1..]) {
    } else {
      SubTail(s, a[1..]);
    }
  }

  // No common subsequence is longer.
  lemma {:induction false} LcsBounds(s: seq<Line>, a: seq<Line>, b: seq<Line>)
    requires Sub(s, a) && Sub(s, b)
    ensures |s| <= Lcs(a, b)
    decreases |a| + |b|
  {
    if s != [] {
      if a[0] == b[0] {
        SubTail(s, a);
        SubTail(s, b);
        LcsBounds(s[1..], a[1..], b[1..]);
      } else if Sub(s, a[1..]) {
        LcsBounds(s, a[1..], b);
      } else {
        LcsBounds(s, a, b[1..]);
      }
    }
  }

  // Some common subsequence is that long.
  lemma {:induction false} LcsAttained(a: seq<Line>, b: seq<Line>) returns (s: seq<Line>)
    ensures Sub(s, a) && Sub(s, b) && |s| == Lcs(a, b)
    decreases |a| + |b|
  {
    if a == [] || b == [] {
      s := [];
    } else if a[0] == b[0] {
      var t := LcsAttained(a[1..], b[1..]);
      s := [a[0]] + t;
      assert s[1..] == t;
    } else if Lcs(a[1..], b) >= Lcs(a, b[1..]) {
      s := LcsAttained(a[1..], b);
    } else {
      s := LcsAttained(a, b[1..]);
    }
  }

  // The table holds the length for every pair of suffixes.
  method FillTable(a: seq<Line>, b: seq<Line>) returns (d: array2<int>)
    ensures fresh(d) && d.Length0 == |a| + 1 && d.Length1 == |b| + 1
    ensures forall i, j :: 0 <= i <= |a| && 0 <= j <= |b| ==> d[i, j] == Lcs(a[i..], b[j..])
  {
    hide Lcs;
    var n, m := |a|, |b|;
    d := new int[n + 1, m + 1]((x, y) => 0);
    forall k: nat
      ensures k <= n ==> Lcs(a[k..], b[m..]) == 0
      ensures k <= m ==> Lcs(a[n..], b[k..]) == 0
    {
      LcsEmpty(a, b, k);
    }
    for i := n downto 0
      invariant forall x, y :: i <= x <= n && 0 <= y <= m ==> d[x, y] == Lcs(a[x..], b[y..])
      invariant forall x :: 0 <= x <= n ==> d[x, m] == 0
    {
      for j := m downto 0
        invariant forall x, y :: i < x <= n && 0 <= y <= m ==> d[x, y] == Lcs(a[x..], b[y..])
        invariant forall y :: j <= y <= m ==> d[i, y] == Lcs(a[i..], b[y..])
        invariant forall x :: 0 <= x <= n ==> d[x, m] == 0
      {
        LcsStep(a, b, i, j);
        if a[i] == b[j] {
          d[i, j] := d[i + 1, j + 1] + 1;
        } else if d[i + 1, j] >= d[i, j + 1] {
          d[i, j] := d[i + 1, j];
        } else {
          d[i, j] := d[i, j + 1];
        }
      }
    }
  }

  lemma LcsEmpty(a: seq<Line>, b: seq<Line>, k: nat)
    ensures k <= |a| ==> Lcs(a[k..], b[|b|..]) == 0
    ensures k <= |b| ==> Lcs(a[|a|..], b[k..]) == 0
  {
  }

  lemma LcsStep(a: seq<Line>, b: seq<Line>, i: nat, j: nat)
    requires i < |a| && j < |b|
    ensures Lcs(a[i..], b[j..]) ==
            if a[i] == b[j] then Lcs(a[i + 1..], b[j + 1..]) + 1
            else if Lcs(a[i + 1..], b[j..]) >= Lcs(a[i..], b[j + 1..]) then Lcs(a[i + 1..], b[j..])
            else Lcs(a[i..], b[j + 1..])
  {
    assert a[i..][1..] == a[i + 1..] && b[j..][1..] == b[j + 1..];
  }

  // ---- edit scripts ----

  datatype Kind = Same | Minus | Plus

  datatype Op = Op(kind: Kind, line: Line)

  // The lines of either input that a script accounts for.
  function ProjA(ops: seq<Op>): seq<Line>
  {
    if ops == [] then []
    else ProjA(ops[..|ops| - 1]) + if ops[|ops| - 1].kind != Plus then [ops[|ops| - 1].line] else []
  }

  function ProjB(ops: seq<Op>): seq<Line>
  {
    if ops == [] then []
    else ProjB(ops[..|ops| - 1]) + if ops[|ops| - 1].kind != Minus then [ops[|ops| - 1].line] else []
  }

  function Changes(ops: seq<Op>): nat
  {
    if ops == [] then 0 else Changes(ops[..|ops| - 1]) + if ops[|ops| - 1].kind != Same then 1 else 0
  }

  lemma Snoc(ops: seq<Op>, o: Op)
    ensures ProjA(ops + [o]) == ProjA(ops) + if o.kind != Plus then [o.line] else []
    ensures ProjB(ops + [o]) == ProjB(ops) + if o.kind != Minus then [o.line] else []
    ensures Changes(ops + [o]) == Changes(ops) + if o.kind != Same then 1 else 0
  {
    assert (ops + [o])[..|ops|] == ops;
  }

  // Between two lines that stay, what goes is listed before what comes.
  predicate DeletionsFirst(ops: seq<Op>)
  {
    forall k :: 0 < k < |ops| && ops[k].kind == Minus ==> ops[k - 1].kind != Plus
  }

  lemma DeletionsSnoc(ops: seq<Op>, o: Op)
    requires DeletionsFirst(ops) && (o.kind == Minus && ops != [] ==> ops[|ops| - 1].kind != Plus)
    ensures DeletionsFirst(ops + [o])
  {
  }

  lemma LcsShorter(a: seq<Line>, b: seq<Line>, j: nat)
    requires j < |b|
    ensures Lcs(a, b[j + 1..]) <= Lcs(a, b[j..])
  {
    hide Lcs;
    var s := LcsAttained(a, b[j + 1..]);
    assert b[j..][1..] == b[j + 1..];
    LcsBounds(s, a, b[j..]);
  }

  method EditScript(a: seq<Line>, b: seq<Line>, d: array2<int>) returns (ops: seq<Op>)
    requires d.Length0 == |a| + 1 && d.Length1 == |b| + 1
    requires forall i, j :: 0 <= i <= |a| && 0 <= j <= |b| ==> d[i, j] == Lcs(a[i..], b[j..])
    ensures ProjA(ops) == a && ProjB(ops) == b
    ensures Changes(ops) == |a| + |b| - 2 * Lcs(a, b) && DeletionsFirst(ops)
  {
    hide Lcs, ProjA, ProjB, Changes, DeletionsFirst, Awaits;
    ops := [];
    var i, j := 0, 0;
    Empty();
    NothingFirst(a, b);
    assert a[0..] == a && b[0..] == b;
    while i < |a| && j < |b|
      invariant 0 <= i <= |a| && 0 <= j <= |b|
      invariant ProjA(ops) == a[..i] && ProjB(ops) == b[..j]
      invariant Changes(ops) + |a| - i + |b| - j - 2 * Lcs(a[i..], b[j..]) == |a| + |b| - 2 * Lcs(a, b)
      invariant DeletionsFirst(ops)
      invariant Awaits(a, b, ops, i, j)
    {
      LcsStep(a, b, i, j);
      if a[i] == b[j] {
        Snoc(ops, Op(Same, a[i]));
        DeletionsSnoc(ops, Op(Same, a[i]));
        AwaitsNothing(a, b, ops, Op(Same, a[i]), i + 1, j + 1);
        ops, i, j := ops + [Op(Same, a[i])], i + 1, j + 1;
      } else if d[i + 1, j] >= d[i, j + 1] {
        NoneAwaited(a, b, ops, i, j);
        Snoc(ops, Op(Minus, a[i]));
        DeletionsSnoc(ops, Op(Minus, a[i]));
        AwaitsNothing(a, b, ops, Op(Minus, a[i]), i + 1, j);
        ops, i := ops + [Op(Minus, a[i])], i + 1;
      } else {
        Snoc(ops, Op(Plus, b[j]));
        DeletionsSnoc(ops, Op(Plus, b[j]));
        AwaitsPlus(a, b, ops, Op(Plus, b[j]), i, j);
        ops, j := ops + [Op(Plus, b[j])], j + 1;
      }
    }
    LcsEmpty(a, b, i);
    LcsEmpty(a, b, j);
    if i < |a| { NoneAwaitedAtEnd(a, b, ops, i); }
    ops := RestOfScript(a, b, ops, i, j);
  }

  // What is left of one side goes or comes.
  method RestOfScript(a: seq<Line>, b: seq<Line>, start: seq<Op>, i0: nat, j0: nat) returns (ops: seq<Op>)
    requires i0 <= |a| && j0 <= |b| && (i0 == |a| || j0 == |b|) && DeletionsFirst(start)
    requires ProjA(start) == a[..i0] && ProjB(start) == b[..j0]
    requires i0 < |a| && start != [] ==> start[|start| - 1].kind != Plus
    ensures ProjA(ops) == a && ProjB(ops) == b && DeletionsFirst(ops)
    ensures Changes(ops) == Changes(start) + |a| - i0 + |b| - j0
  {
    hide ProjA, ProjB, Changes, DeletionsFirst;
    ops := start;
    var i, j := i0, j0;
    while i < |a|
      invariant 0 <= i <= |a| && 0 <= j <= |b| && (i < |a| ==> j == |b|)
      invariant ProjA(ops) == a[..i] && ProjB(ops) == b[..j]
      invariant Changes(ops) + |a| - i + |b| - j == Changes(start) + |a| - i0 + |b| - j0
      invariant DeletionsFirst(ops) && (i < |a| && ops != [] ==> ops[|ops| - 1].kind != Plus)
    {
      Snoc(ops, Op(Minus, a[i]));
      DeletionsSnoc(ops, Op(Minus, a[i]));
      ops, i := ops + [Op(Minus, a[i])], i + 1;
    }
    while j < |b|
      invariant 0 <= j <= |b|
      invariant ProjA(ops) == a[..i] && ProjB(ops) == b[..j] && i == |a|
      invariant Changes(ops) + |b| - j == Changes(start) + |a| - i0 + |b| - j0 && DeletionsFirst(ops)
    {
      Snoc(ops, Op(Plus, b[j]));
      DeletionsSnoc(ops, Op(Plus, b[j]));
      ops, j := ops + [Op(Plus, b[j])], j + 1;
    }
  }

  // A line that came is only followed by lines that stay or come.
  ghost predicate Awaits(a: seq<Line>, b: seq<Line>, ops: seq<Op>, i: nat, j: nat)
  {
    ops != [] && ops[|ops| - 1].kind == Plus && i < |a| && j <= |b| ==>
      j > 0 && Lcs(a[i + 1..], b[j - 1..]) < Lcs(a[i..], b[j..])
  }

  lemma NothingFirst(a: seq<Line>, b: seq<Line>)
    ensures DeletionsFirst([]) && Awaits(a, b, [], 0, 0)
  {
  }

  lemma AwaitsNothing(a: seq<Line>, b: seq<Line>, ops: seq<Op>, o: Op, i: nat, j: nat)
    requires o.kind != Plus
    ensures Awaits(a, b, ops + [o], i, j)
  {
  }

  lemma AwaitsPlus(a: seq<Line>, b: seq<Line>, ops: seq<Op>, o: Op, i: nat, j: nat)
    requires i < |a| && j < |b| && Lcs(a[i + 1..], b[j..]) < Lcs(a[i..], b[j + 1..])
    ensures Awaits(a, b, ops + [o], i, j + 1)
  {
    hide Lcs;
  }

  lemma NoneAwaited(a: seq<Line>, b: seq<Line>, ops: seq<Op>, i: nat, j: nat)
    requires Awaits(a, b, ops, i, j) && i < |a| && j < |b|
    requires a[i] != b[j] && Lcs(a[i + 1..], b[j..]) >= Lcs(a[i..], b[j + 1..])
    ensures ops != [] ==> ops[|ops| - 1].kind != Plus
  {
    hide Lcs;
    LcsStep(a, b, i, j);
    if j > 0 { LcsShorter(a[i + 1..], b, j - 1); }
  }

  lemma NoneAwaitedAtEnd(a: seq<Line>, b: seq<Line>, ops: seq<Op>, i: nat)
    requires Awaits(a, b, ops, i, |b|) && i < |a|
    ensures ops != [] ==> ops[|ops| - 1].kind != Plus
  {
    hide Lcs;
    LcsEmpty(a, b, i);
  }

  lemma Empty()
    ensures ProjA([]) == [] && ProjB([]) == [] && Changes([]) == 0
  {
  }

  // The lines a script keeps.
  ghost function Kept(ops: seq<Op>): seq<Line>
  {
    if ops == [] then [] else (if ops[0].kind == Same then [ops[0].line] else []) + Kept(ops[1..])
  }

  lemma {:induction false} Cons(o: Op, rest: seq<Op>)
    ensures ProjA([o] + rest) == (if o.kind != Plus then [o.line] else []) + ProjA(rest)
    ensures ProjB([o] + rest) == (if o.kind != Minus then [o.line] else []) + ProjB(rest)
    ensures Changes([o] + rest) == (if o.kind != Same then 1 else 0) + Changes(rest)
  {
    hide ProjA, ProjB, Changes;
    if rest == [] {
      Empty();
      Snoc([], o);
      assert [] + [o] == [o] == [o] + rest;
    } else {
      var init, last := rest[..|rest| - 1], rest[|rest| - 1];
      Cons(o, init);
      Snoc([o] + init, last);
      Snoc(init, last);
      assert rest == init + [last] && [o] + rest == ([o] + init) + [last];
    }
  }

  lemma {:induction false} KeptIsCommon(ops: seq<Op>)
    ensures Sub(Kept(ops), ProjA(ops)) && Sub(Kept(ops), ProjB(ops))
    ensures Changes(ops) == |ProjA(ops)| + |ProjB(ops)| - 2 * |Kept(ops)|
  {
    hide ProjA, ProjB, Changes, Sub;
    Empty();
    if ops == [] {
      SubNothing([]);
    } else {
      var o, rest := ops[0], ops[1..];
      assert ops == [o] + rest;
      KeptIsCommon(rest);
      Cons(o, rest);
      SubCons(Kept(rest), ProjA(rest), o.line);
      SubCons(Kept(rest), ProjB(rest), o.line);
      assert [] + ProjA(rest) == ProjA(rest) && [] + ProjB(rest) == ProjB(rest) && [] + Kept(rest) == Kept(rest);
    }
  }

  lemma SubNothing(a: seq<Line>)
    ensures Sub([], a)
  {
  }

  lemma SubCons(s: seq<Line>, a: seq<Line>, x: Line)
    requires Sub(s, a)
    ensures Sub([x] + s, [x] + a) && Sub(s, [x] + a)
  {
    assert ([x] + s)[1..] == s && ([x] + a)[1..] == a;
  }

  // No script between the same inputs changes fewer lines.
  lemma {:induction false} MinimalScript(a: seq<Line>, b: seq<Line>, ops: seq<Op>)
    requires ProjA(ops) == a && ProjB(ops) == b
    ensures Changes(ops) >= |a| + |b| - 2 * Lcs(a, b)
  {
    hide ProjA, ProjB, Changes, Sub, Kept, Lcs;
    KeptIsCommon(ops);
    LcsBounds(Kept(ops), a, b);
  }

  // ---- hunks ----

  const CONTEXT: nat := 3

  datatype Hunk = Hunk(aDisp: nat, aCount: nat, bDisp: nat, bCount: nat, ops: seq<Op>)

  predicate Change(ops: seq<Op>, i: int) { 0 <= i < |ops| && ops[i].kind != Same }

  // Within three lines of a change.
  ghost predicate Near(ops: seq<Op>, i: int)
  {
    exists c :: Change(ops, c) && i - c <= CONTEXT && c - i <= CONTEXT
  }

  ghost predicate Shown(spans: seq<(nat, nat)>, i: int)
  {
    exists k :: 0 <= k < |spans| && spans[k].0 <= i < spans[k].1
  }

  // The end of a group of changes whose gaps are at most twice the context.
  method GroupEnd(ops: seq<Op>, k: nat) returns (end: nat)
    requires Change(ops, k)
    ensures k < end <= |ops| && Change(ops, end - 1)
    ensures forall q :: k <= q < end ==> Near(ops, q)
    ensures forall c :: end <= c && Change(ops, c) ==> c > end + 2 * CONTEXT
  {
    end := k;
    while end < |ops|
      invariant k <= end <= |ops|
      invariant end == k || Change(ops, end - 1) || Change(ops, end)
      invariant forall q :: k <= q < end ==> Near(ops, q)
    {
      if ops[end].kind != Same {
        assert Change(ops, end) && Near(ops, end);
        end := end + 1;
        continue;
      }
      var p := end;
      while p < |ops| && ops[p].kind == Same
        invariant end <= p <= |ops| && forall q :: end <= q < p ==> ops[q].kind == Same
      {
        p := p + 1;
      }
      if p - end <= 2 * CONTEXT && p < |ops| {
        forall q | end <= q < p ensures Near(ops, q) {
          if q - (end - 1) <= CONTEXT { assert Change(ops, end - 1); } else { assert Change(ops, p); }
        }
        end := p;
        continue;
      }
      break;
    }
  }

  method CountSides(ops: seq<Op>) returns (na: nat, nb: nat)
    ensures na == |ProjA(ops)| && nb == |ProjB(ops)|
  {
    hide ProjA, ProjB;
    na, nb := 0, 0;
    Empty();
    assert ops[..0] == [];
    for i := 0 to |ops|
      invariant na == |ProjA(ops[..i])| && nb == |ProjB(ops[..i])|
    {
      assert ops[..i + 1] == ops[..i] + [ops[i]];
      Snoc(ops[..i], ops[i]);
      if ops[i].kind != Plus { na := na + 1; }
      if ops[i].kind != Minus { nb := nb + 1; }
    }
    assert ops[..|ops|] == ops;
  }

  // One hunk with its header: a side without lines shows the line before.
  method MakeHunk(ops: seq<Op>, start: nat, end: nat) returns (h: Hunk)
    requires start <= end <= |ops|
    ensures h.ops == ops[start..end] && h.aCount == |ProjA(h.ops)| && h.bCount == |ProjB(h.ops)|
    ensures StartOf(h.aDisp, h.aCount) == Some(|ProjA(ops[..start])|)
    ensures StartOf(h.bDisp, h.bCount) == Some(|ProjB(ops[..start])|)
    ensures IsStretch(ops, h, start, end)
  {
    hide ProjA, ProjB;
    var aStart, bStart := CountSides(ops[..start]);
    var aCount, bCount := CountSides(ops[start..end]);
    var aDisp, bDisp := aStart + 1, bStart + 1;
    if aCount == 0 { aDisp := aStart; }
    if bCount == 0 { bDisp := bStart; }
    return Hunk(aDisp, aCount, bDisp, bCount, ops[start..end]);
  }

  // Where a header says its lines begin, counted from zero.
  function StartOf(disp: nat, count: nat): Option<nat>
  {
    if count == 0 then Some(disp) else if disp == 0 then None else Some(disp - 1)
  }

  // ---- applying hunks ----

  // The lines of a consumed and of b produced after some hunks; None when
  // a header or a line does not fit.
  function Applied(a: seq<Line>, hunks: seq<Hunk>): Option<(nat, seq<Line>)>
  {
    if hunks == [] then Some((0, []))
    else
      var prior := Applied(a, hunks[..|hunks| - 1]);
      if prior.None? then None else ApplyOne(a, prior.value.0, prior.value.1, hunks[|hunks| - 1])
  }

  function ApplyOne(a: seq<Line>, pos: nat, out: seq<Line>, h: Hunk): Option<(nat, seq<Line>)>
  {
    var s, t := StartOf(h.aDisp, h.aCount), StartOf(h.bDisp, h.bCount);
    if s.None? || t.None? || s.value < pos || s.value + h.aCount > |a| || |out| + s.value - pos != t.value
       || a[s.value..s.value + h.aCount] != ProjA(h.ops) || h.bCount != |ProjB(h.ops)| then None
    else Some((s.value + h.aCount, out + a[pos..s.value] + ProjB(h.ops)))
  }

  function Patch(a: seq<Line>, hunks: seq<Hunk>): Option<seq<Line>>
  {
    var r := Applied(a, hunks);
    if r.None? || r.value.0 > |a| then None else Some(r.value.1 + a[r.value.0..])
  }

  lemma {:induction false} ProjAppend(x: seq<Op>, y: seq<Op>)
    ensures ProjA(x + y) == ProjA(x) + ProjA(y) && ProjB(x + y) == ProjB(x) + ProjB(y)
  {
    hide ProjA, ProjB;
    Empty();
    if y == [] {
      assert x + y == x;
    } else {
      var init, last := y[..|y| - 1], y[|y| - 1];
      assert y == init + [last] && x + y == (x + init) + [last];
      ProjAppend(x, init);
      Snoc(x + init, last);
      Snoc(init, last);
    }
  }

  // Lines that are the same on both sides project the same.
  lemma {:induction false} SameProjects(ops: seq<Op>)
    requires forall i :: 0 <= i < |ops| ==> ops[i].kind == Same
    ensures ProjA(ops) == ProjB(ops) && |ProjA(ops)| == |ops|
  {
    if ops != [] { SameProjects(ops[..|ops| - 1]); }
  }

  // Applying the next hunk after a stretch of context.
  lemma NextHunk(ops: seq<Op>, e: nat, start: nat, end: nat, h: Hunk)
    requires e <= start <= end <= |ops| && forall q :: e <= q < start ==> ops[q].kind == Same
    requires h.ops == ops[start..end] && h.aCount == |ProjA(h.ops)| && h.bCount == |ProjB(h.ops)|
    requires StartOf(h.aDisp, h.aCount) == Some(|ProjA(ops[..start])|)
    requires StartOf(h.bDisp, h.bCount) == Some(|ProjB(ops[..start])|)
    ensures ApplyOne(ProjA(ops), |ProjA(ops[..e])|, ProjB(ops[..e]), h) ==
            Some((|ProjA(ops[..end])|, ProjB(ops[..end])))
  {
    hide ProjA, ProjB;
    var gap := ops[e..start];
    SameProjects(gap);
    assert ops[..start] == ops[..e] + gap && ops[..end] == ops[..start] + h.ops && ops == ops[..end] + ops[end..];
    ProjAppend(ops[..e], gap);
    ProjAppend(ops[..start], h.ops);
    ProjAppend(ops[..end], ops[end..]);
    var a := ProjA(ops);
    var x, y, z := |ProjA(ops[..e])|, |ProjA(ops[..start])|, |ProjA(ops[..end])|;
    assert a == ProjA(ops[..e]) + ProjA(gap) + ProjA(h.ops) + ProjA(ops[end..]);
    assert a[x..y] == ProjA(gap) && a[y..z] == ProjA(h.ops);
    assert ProjB(ops[..e]) + a[x..y] + ProjB(h.ops) == ProjB(ops[..end]);
  }

  lemma LastStretch(ops: seq<Op>, e: nat)
    requires e <= |ops| && forall q :: e <= q < |ops| ==> ops[q].kind == Same
    ensures |ProjA(ops[..e])| <= |ProjA(ops)|
    ensures ProjB(ops[..e]) + ProjA(ops)[|ProjA(ops[..e])|..] == ProjB(ops)
  {
    hide ProjA, ProjB;
    SameProjects(ops[e..]);
    assert ops == ops[..e] + ops[e..];
    ProjAppend(ops[..e], ops[e..]);
  }

  // Within three lines of one that changes.
  ghost predicate InContext(ops: seq<Op>, i: int)
  {
    exists c :: 0 <= c < |ops| && ops[c].kind != Same && -3 <= i - c <= 3
  }

  lemma ThreeLines(ops: seq<Op>, i: int)
    ensures Near(ops, i) <==> InContext(ops, i)
  {
    if Near(ops, i) { var c :| Change(ops, c) && i - c <= CONTEXT && c - i <= CONTEXT; }
    if InContext(ops, i) {
      var c :| 0 <= c < |ops| && ops[c].kind != Same && -3 <= i - c <= 3;
      assert Change(ops, c);
    }
  }

  // A hunk is a stretch of the script. Its header gives, for each side, the
  // number of its lines and the number of the first, counted from one, or
  // of the line before when there is none.
  predicate IsStretch(ops: seq<Op>, h: Hunk, from: nat, to: nat)
    requires from <= to <= |ops|
  {
    && h.ops == ops[from..to] && h.aCount == |ProjA(h.ops)| && h.bCount == |ProjB(h.ops)|
    && h.aDisp == |ProjA(ops[..from])| + (if h.aCount == 0 then 0 else 1)
    && h.bDisp == |ProjB(ops[..from])| + (if h.bCount == 0 then 0 else 1)
  }

  // The hunks are the stretches of lines in context, in order and apart.
  ghost predicate Displays(ops: seq<Op>, hunks: seq<Hunk>, spans: seq<(nat, nat)>)
  {
    && |hunks| == |spans|
    && (forall k :: 0 <= k < |spans| ==> spans[k].0 < spans[k].1 <= |ops|)
    && (forall k :: 0 <= k < |spans| ==> IsStretch(ops, hunks[k], spans[k].0, spans[k].1))
    && (forall k, l :: 0 <= k < l < |spans| ==> spans[k].1 < spans[l].0)
    && forall i :: 0 <= i < |ops| ==>
         (InContext(ops, i) <==> exists k :: 0 <= k < |spans| && spans[k].0 <= i < spans[k].1)
  }

  // The hunks show exactly the lines within three of a change, in order and
  // without touching, and applying them to the old lines gives the new.
  method Hunks(ops: seq<Op>) returns (hunks: seq<Hunk>, ghost spans: seq<(nat, nat)>)
    ensures |hunks| == |spans|
    ensures forall k ::
            0 <= k < |hunks| ==> spans[k].0 < spans[k].1 <= |ops| && hunks[k].ops == ops[spans[k].0..spans[k].1]
    ensures forall k, l :: 0 <= k < l < |spans| ==> spans[k].1 < spans[l].0
    ensures forall i :: 0 <= i < |ops| ==> (Shown(spans, i) <==> Near(ops, i))
    ensures forall k :: 0 <= k < |hunks| ==> IsStretch(ops, hunks[k], spans[k].0, spans[k].1)
    ensures Patch(ProjA(ops), hunks) == Some(ProjB(ops))
  {
    hide ProjA, ProjB, StartOf, Near, ApplyOne, Applied, Shown, IsStretch;
    hunks, spans := [], [];
    AppliedNothing(ProjA(ops));
    NoneShown(ops);
    var k: nat := 0;
    ghost var e: nat := 0;
    Empty();
    assert ops[..0] == [];
    while k < |ops|
      invariant 0 <= e <= k <= |ops| && |hunks| == |spans|
      invariant forall i :: 0 <= i < |hunks| ==> spans[i].0 < spans[i].1 <= e
      invariant forall i :: 0 <= i < |hunks| ==> IsStretch(ops, hunks[i], spans[i].0, spans[i].1)
      invariant forall i, l :: 0 <= i < l < |spans| ==> spans[i].1 < spans[l].0
      invariant forall i :: 0 <= i < e ==> (Shown(spans, i) <==> Near(ops, i))
      invariant forall q :: e <= q < k ==> ops[q].kind == Same
      invariant spans == [] ==> e == 0
      invariant spans != [] ==> forall c :: e <= c && Change(ops, c) ==> c > e + CONTEXT
      invariant spans != [] ==> e == |ops| || forall c :: c < e && Change(ops, c) ==> c + CONTEXT < e
      invariant Applied(ProjA(ops), hunks) == Some((|ProjA(ops[..e])|, ProjB(ops[..e])))
      decreases |ops| - k
    {
      if ops[k].kind == Same {
        k := k + 1;
        continue;
      }
      assert Change(ops, k);
      var start := if k < CONTEXT then 0 else k - CONTEXT;
      var group := GroupEnd(ops, k);
      var end := if group + CONTEXT < |ops| then group + CONTEXT else |ops|;
      var h := MakeHunk(ops, start, end);
      NextHunk(ops, e, start, end, h);
      ShownNext(ops, spans, e, k, group, start, end);
      AppliedNext(ProjA(ops), hunks, h);
      hunks, spans := hunks + [h], spans + [(start, end)];
      e, k := end, end;
    }
    if spans != [] { NothingNear(ops, spans, e); } else { NoChange(ops); }
    LastStretch(ops, e);
    forall i | 0 <= i < |hunks| ensures hunks[i].ops == ops[spans[i].0..spans[i].1] {
      StretchOps(ops, hunks[i], spans[i].0, spans[i].1);
    }
  }

  lemma StretchOps(ops: seq<Op>, h: Hunk, from: nat, to: nat)
    requires from <= to <= |ops| && IsStretch(ops, h, from, to)
    ensures h.ops == ops[from..to]
  {
  }

  lemma AppliedNothing(a: seq<Line>)
    ensures Applied(a, []) == Some((0, []))
  {
  }

  lemma AppliedNext(a: seq<Line>, hunks: seq<Hunk>, h: Hunk)
    requires Applied(a, hunks).Some?
    ensures Applied(a, hunks + [h]) == ApplyOne(a, Applied(a, hunks).value.0, Applied(a, hunks).value.1, h)
  {
    hide ApplyOne;
    assert (hunks + [h])[..|hunks|] == hunks;
  }

  lemma NoneShown(ops: seq<Op>)
    ensures forall i :: !Shown([], i)
  {
  }

  lemma NoChange(ops: seq<Op>)
    requires forall q :: 0 <= q < |ops| ==> ops[q].kind == Same
    ensures forall i :: !Near(ops, i)
  {
  }

  lemma NothingNear(ops: seq<Op>, spans: seq<(nat, nat)>, e: nat)
    requires e <= |ops| && forall q :: e <= q < |ops| ==> ops[q].kind == Same
    requires e == |ops| || forall c :: c < e && Change(ops, c) ==> c + CONTEXT < e
    requires forall i :: 0 <= i < |spans| ==> spans[i].1 <= e
    ensures forall i :: e <= i < |ops| ==> !Shown(spans, i) && !Near(ops, i)
  {
  }

  lemma ShownNext(ops: seq<Op>, spans: seq<(nat, nat)>, e: nat, k: nat, group: nat, start: nat, end: nat)
    requires e <= k < group <= |ops| && Change(ops, k) && Change(ops, group - 1)
    requires start == (if k < CONTEXT then 0 else k - CONTEXT)
             && end == if group + CONTEXT < |ops| then group + CONTEXT else |ops|
    requires forall q :: e <= q < k ==> ops[q].kind == Same
    requires forall q :: k <= q < group ==> Near(ops, q)
    requires forall c :: group <= c && Change(ops, c) ==> c > group + 2 * CONTEXT
    requires forall i :: 0 <= i < |spans| ==> spans[i].1 <= e
    requires forall i :: 0 <= i < e ==> (Shown(spans, i) <==> Near(ops, i))
    requires spans == [] ==> e == 0
    requires spans != [] ==> k > e + CONTEXT && (e == |ops| || forall c :: c < e && Change(ops, c) ==> c + CONTEXT < e)
    ensures e <= start < end
    ensures forall i :: 0 <= i < end ==> (Shown(spans + [(start, end)], i) <==> Near(ops, i))
    ensures forall c :: end <= c && Change(ops, c) ==> c > end + CONTEXT
    ensures end == |ops| || forall c :: c < end && Change(ops, c) ==> c + CONTEXT < end
  {
    var all := spans + [(start, end)];
    forall i | 0 <= i < end ensures Shown(all, i) <==> Near(ops, i) {
      if start <= i {
        assert all[|spans|] == (start, end);
        assert Shown(all, i);
        if i < k { assert Change(ops, k); } else if i >= group { assert Change(ops, group - 1); }
      } else {
        forall n | 0 <= n < |all| ensures all[n].0 <= i < all[n].1 <==> n < |spans| && spans[n].0 <= i < spans[n].1 {}
        assert Shown(all, i) <==> Shown(spans, i) by {
          if Shown(spans, i) { var n :| 0 <= n < |spans| && spans[n].0 <= i < spans[n].1; assert all[n] == spans[n]; }
        }
        if e <= i {
          NotNear(ops, e, k, i, spans != []);
        }
      }
    }
  }

  lemma NotNear(ops: seq<Op>, e: nat, k: nat, i: nat, later: bool)
    requires e <= i < k - CONTEXT && k <= |ops| && forall q :: e <= q < k ==> ops[q].kind == Same
    requires !later ==> e == 0
    requires later ==> e == |ops| || forall c :: c < e && Change(ops, c) ==> c + CONTEXT < e
    ensures !Near(ops, i)
  {
  }

  // ---- the diff ----

  method UnifiedDiff(a: seq<Line>, b: seq<Line>) returns (hunks: seq<Hunk>, ops: seq<Op>)
    ensures ProjA(ops) == a && ProjB(ops) == b && Changes(ops) == |a| + |b| - 2 * Lcs(a, b) && DeletionsFirst(ops)
    ensures exists spans :: Displays(ops, hunks, spans)
    ensures Patch(a, hunks) == Some(b)
    ensures a == b ==> hunks == []
  {
    hide Lcs, ProjA, ProjB, Changes, Patch;
    var d := FillTable(a, b);
    ops := EditScript(a, b, d);
    ghost var spans;
    hunks, spans := Hunks(ops);
    ShowsContext(ops, hunks, spans);
    if a == b {
      UnchangedScript(a, ops);
      NothingShown(ops, spans);
    }
  }

  lemma ShowsContext(ops: seq<Op>, hunks: seq<Hunk>, spans: seq<(nat, nat)>)
    requires |hunks| == |spans| && forall k, l :: 0 <= k < l < |spans| ==> spans[k].1 < spans[l].0
    requires forall k :: 0 <= k < |spans| ==> spans[k].0 < spans[k].1 <= |ops|
    requires forall k :: 0 <= k < |spans| ==> IsStretch(ops, hunks[k], spans[k].0, spans[k].1)
    requires forall i :: 0 <= i < |ops| ==> (Shown(spans, i) <==> Near(ops, i))
    ensures Displays(ops, hunks, spans)
  {
    hide IsStretch, Near, InContext;
    forall i ensures Near(ops, i) <==> InContext(ops, i) { ThreeLines(ops, i); }
    assert forall i :: Shown(spans, i) <==> exists k :: 0 <= k < |spans| && spans[k].0 <= i < spans[k].1;
  }

  lemma NothingShown(ops: seq<Op>, spans: seq<(nat, nat)>)
    requires (forall k :: 0 <= k < |spans| ==> spans[k].0 < spans[k].1 <= |ops|) && forall i :: !Change(ops, i)
    requires forall i :: 0 <= i < |ops| ==> (Shown(spans, i) <==> Near(ops, i))
    ensures spans == []
  {
    assert forall i :: !Near(ops, i);
    assert spans != [] ==> Shown(spans, spans[0].0);
  }

  // Equal inputs have a script without changes.
  lemma UnchangedScript(a: seq<Line>, ops: seq<Op>)
    requires Changes(ops) == |a| + |a| - 2 * Lcs(a, a)
    ensures forall i :: !Change(ops, i)
  {
    LcsSelf(a);
    NoChanges(ops);
  }

  lemma {:induction false} LcsSelf(a: seq<Line>)
    ensures Lcs(a, a) == |a|
  {
    if a != [] { LcsSelf(a[1..]); }
  }

  lemma {:induction false} NoChanges(ops: seq<Op>)
    requires Changes(ops) == 0
    ensures forall i :: !Change(ops, i)
  {
    if ops != [] {
      var init := ops[..|ops| - 1];
      NoChanges(init);
      forall i ensures !Change(ops, i) {
        if 0 <= i < |init| { assert !Change(init, i); }
      }
    }
  }
}
