/** Flattening firewalld services with includes: cycle-checked recursion over
    a table of definitions. */
module FirewalldServices {
  import opened Bytes
  import opened Outcomes
  import opened Rules

  datatype Service = Service(ports: seq<PortRange>, protos: seq<string>, dst4: string, dst6: string,
                             modules: seq<string>, includes: seq<string>)

  // The usable definitions: parsed files, and /etc/services entries for
  // names without a file.
  type Table = map<string, Service>

  // What a resolved service carries.
  datatype Flat = Flat(ports: seq<PortRange>, protos: seq<string>, dst4: string, dst6: string, modules: seq<string>)

  // An include without a destination adds none; equal ones agree.
  function MergeDst(outer: string, inner: string): Result<string>
  {
    if inner == "" then Ok(outer)
    else if outer == "" then Ok(inner)
    else if outer != inner then Err
    else Ok(outer)
  }

  // Definitions that are not being resolved.
  function Left(table: Table, stack: set<string>): nat
  {
    |table.Keys - stack|
  }

  lemma LeftShrinks(table: Table, stack: set<string>, name: string)
    requires name in table && name !in stack
    ensures Left(table, stack + {name}) < Left(table, stack)
  {
    var rest := table.Keys - stack;
    assert table.Keys - (stack + {name}) == rest - {name};
    assert name in rest;
  }

  function Resolve(table: Table, name: string, stack: set<string>): Result<Flat>
    decreases Left(table, stack), 1, 0
  {
    if name in stack || name !in table then Err
    else
      LeftShrinks(table, stack, name);
      var s := table[name];
      ResolveIncludes(table, name, Flat(s.ports, s.protos, s.dst4, s.dst6, s.modules), s.includes, stack + {name})
  }

  // Merges the includes into the definition, in order.
  function ResolveIncludes(table: Table, name: string, start: Flat, includes: seq<string>,
      stack: set<string>): Result<Flat>
    decreases Left(table, stack), 2, |includes|
  {
    if includes == [] then Ok(start)
    else
      var init := ResolveIncludes(table, name, start, includes[..|includes| - 1], stack);
      if init.Err? then Err
      else
        var sub := Resolve(table, includes[|includes| - 1], stack);
        if sub.Err? then Err else Merge(init.value, sub.value)
  }

  function Merge(f: Flat, sub: Flat): Result<Flat>
  {
    var d4, d6 := MergeDst(f.dst4, sub.dst4), MergeDst(f.dst6, sub.dst6);
    if d4.Err? || d6.Err? then Err
    else Ok(Flat(f.ports + sub.ports, f.protos + sub.protos, d4.value, d6.value, f.modules + sub.modules))
  }

  // ---- the loader ----

  class Resolver {
    const table: Table
    var stack: set<string>

    constructor (table: Table)
      ensures this.table == table && stack == {}
    {
      this.table, stack := table, {};
    }

    // resolveService terminates on every table, and leaves the stack as it
    // found it whether or not it succeeds.
    method ResolveService(name: string) returns (r: Result<Flat>)
      modifies this`stack
      ensures r == Resolve(table, name, old(stack))
      ensures stack == old(stack)
      decreases Left(table, stack)
    {
      if name in stack { return Err; }
      if name !in table { return Err; }
      LeftShrinks(table, stack, name);
      ghost var entry := stack;
      stack := stack + {name};
      var base := table[name];
      var out := Flat(base.ports, base.protos, base.dst4, base.dst6, base.modules);
      var failed := false;
      assert base.includes[..0] == [];
      for i := 0 to |base.includes|
        invariant stack == entry + {name} && name !in entry
        invariant ResolveIncludes(table, name, Flat(base.ports, base.protos, base.dst4, base.dst6, base.modules),
                                  base.includes[..i], stack) == Ok(out)
      {
        assert base.includes[..i + 1][..i] == base.includes[..i];
        var sub := ResolveService(base.includes[i]);
        var merged := if sub.Err? then Err else Merge(out, sub.value);
        if merged.Err? {
          IncludeFails(table, name, Flat(base.ports, base.protos, base.dst4, base.dst6, base.modules), base.includes, i,
            stack);
          failed := true;
          break;
        }
        out := merged.value;
      }
      assert base.includes[..|base.includes|] == base.includes;
      stack := stack - {name};
      assert stack == entry;
      return if failed then Err else Ok(out);
    }
  }

  lemma {:induction false} IncludeFails(table: Table, name: string, start: Flat, includes: seq<string>, i: nat,
      stack: set<string>)
    requires i < |includes| && ResolveIncludes(table, name, start, includes[..i + 1], stack).Err?
    ensures ResolveIncludes(table, name, start, includes, stack).Err?
    decreases |includes|
  {
    if i + 1 == |includes| {
      assert includes[..i + 1] == includes;
    } else {
      var init := includes[..|includes| - 1];
      assert init[..i + 1] == includes[..i + 1];
      IncludeFails(table, name, start, init, i, stack);
    }
  }

  // ---- the include graph ----

  ghost predicate IsPath(table: Table, path: seq<string>)
  {
    path != [] && forall i :: 0 <= i < |path| - 1 ==> path[i] in table && path[i + 1] in table[path[i]].includes
  }

  ghost predicate From(table: Table, path: seq<string>, name: string)
  {
    IsPath(table, path) && path[0] == name
  }

  ghost predicate NoRepeats(path: seq<string>)
  {
    forall i, j :: 0 <= i < j < |path| ==> path[i] != path[j]
  }

  // Every include path is defined to its end and never meets itself or the
  // services being resolved.
  ghost predicate Grounded(table: Table, name: string, stack: set<string>)
  {
    forall path :: From(table, path, name) ==>
                     && path[|path| - 1] in table && NoRepeats(path) && forall i ::
                     0 <= i < |path| ==> path[i] !in stack
  }

  ghost predicate Reaches(table: Table, name: string, other: string)
  {
    exists path :: From(table, path, name) && path[|path| - 1] == other
  }

  // A reachable definition that names a destination.
  ghost predicate Names(table: Table, name: string, a: string, v6: bool)
  {
    Reaches(table, name, a) && a in table && DstOf(table[a], v6) != ""
  }

  // Reachable definitions that name a destination name the same one.
  ghost predicate Agreed(table: Table, name: string, v6: bool)
  {
    forall a, b :: Names(table, name, a, v6) && Names(table, name, b, v6) ==> DstOf(table[a], v6) == DstOf(table[b], v6)
  }

  function DstOf(s: Service, v6: bool): string { if v6 then s.dst6 else s.dst4 }

  // The destination of a resolved service: the one its definitions name.
  ghost predicate DstFrom(table: Table, name: string, v6: bool, d: string)
  {
    && (forall a :: Reaches(table, name, a) && a in table && DstOf(table[a], v6) != "" ==> DstOf(table[a], v6) == d)
    && (d != "" ==> exists a :: Reaches(table, name, a) && a in table && DstOf(table[a], v6) == d)
  }

  lemma SelfReach(table: Table, name: string)
    ensures From(table, [name], name) && Reaches(table, name, name)
  {
    assert From(table, [name], name) && [name][|[name]| - 1] == name;
  }

  lemma ConsPath(table: Table, name: string, inc: string, path: seq<string>)
    requires name in table && inc in table[name].includes && From(table, path, inc)
    ensures From(table, [name] + path, name) && ([name] + path)[|path|] == path[|path| - 1]
  {
    var p := [name] + path;
    forall i | 0 <= i < |p| - 1 ensures p[i] in table && p[i + 1] in table[p[i]].includes {
      if i > 0 { assert p[i] == path[i - 1] && p[i + 1] == path[i]; }
    }
  }

  lemma TailPath(table: Table, name: string, path: seq<string>)
    requires From(table, path, name) && |path| > 1
    ensures name in table && path[1] in table[name].includes && From(table, path[1..], path[1])
  {
    forall i | 0 <= i < |path[1..]| - 1
      ensures path[1..][i] in table && path[1..][i + 1] in table[path[1..][i]].includes
    {
      assert path[1..][i] == path[i + 1] && path[1..][i + 1] == path[i + 2];
    }
  }

  // Reaching is being the service itself or reaching from an include.
  lemma ReachStep(table: Table, name: string, other: string)
    ensures Reaches(table, name, other) <==>
            other == name || (name in table && exists inc :: inc in table[name].includes && Reaches(table, inc, other))
  {
    SelfReach(table, name);
    if Reaches(table, name, other) && other != name {
      var path :| From(table, path, name) && path[|path| - 1] == other;
      assert |path| > 1;
      TailPath(table, name, path);
      assert path[1..][|path[1..]| - 1] == other;
      assert Reaches(table, path[1], other);
    }
    if name in table {
      forall inc | inc in table[name].includes && Reaches(table, inc, other) ensures Reaches(table, name, other) {
        var path :| From(table, path, inc) && path[|path| - 1] == other;
        ConsPath(table, name, inc, path);
        assert ([name] + path)[|[name] + path| - 1] == other;
      }
    }
  }

  // Being grounded is being defined, off the stack, and having grounded
  // includes.
  lemma GroundedStep(table: Table, name: string, stack: set<string>)
    ensures Grounded(table, name, stack) <==>
            name in table && name !in stack && forall inc ::
              inc in table[name].includes ==> Grounded(table, inc, stack + {name})
  {
    SelfReach(table, name);
    if Grounded(table, name, stack) {
      assert [name][|[name]| - 1] in table && [name][0] !in stack;
      forall inc | inc in table[name].includes ensures Grounded(table, inc, stack + {name}) {
        GroundedInclude(table, name, inc, stack);
      }
    }
    if name in table && name !in stack && forall inc ::
        inc in table[name].includes ==> Grounded(table, inc, stack + {name}) {
      forall path | From(table, path, name)
        ensures path[|path| - 1] in table && NoRepeats(path) && forall i :: 0 <= i < |path| ==> path[i] !in stack
      {
        if |path| > 1 {
          TailPath(table, name, path);
          var tail := path[1..];
          assert Grounded(table, path[1], stack + {name});
          assert tail[|tail| - 1] in table && NoRepeats(tail) && forall i ::
                 0 <= i < |tail| ==> tail[i] !in stack + {name};
          forall i | 0 < i < |path| ensures path[i] !in stack && path[i] != name { assert path[i] == tail[i - 1]; }
          forall i, j | 0 <= i < j < |path| ensures path[i] != path[j] {
            if i > 0 { assert path[i] == tail[i - 1] && path[j] == tail[j - 1]; }
          }
        }
      }
    }
  }

  lemma GroundedInclude(table: Table, name: string, inc: string, stack: set<string>)
    requires Grounded(table, name, stack) && name in table && inc in table[name].includes
    ensures Grounded(table, inc, stack + {name})
  {
    forall path | From(table, path, inc)
      ensures path[|path| - 1] in table && NoRepeats(path) && forall i :: 0 <= i < |path| ==> path[i] !in stack + {name}
    {
      ConsPath(table, name, inc, path);
      var p := [name] + path;
      assert p[|p| - 1] in table && NoRepeats(p) && forall i :: 0 <= i < |p| ==> p[i] !in stack;
      forall i | 0 <= i < |path|
        ensures path[i] !in stack && path[i] != name
      {
        assert p[i + 1] == path[i]; assert p[0] == name;
      }
      forall i, j | 0 <= i < j < |path|
        ensures path[i] != path[j]
      {
        assert p[i + 1] == path[i] && p[j + 1] == path[j];
      }
    }
  }

  // ---- when resolution succeeds ----

  // The destinations named by a definition and the includes seen so far.
  ghost predicate PartDst(table: Table, name: string, includes: seq<string>, v6: bool, d: string)
    requires name in table
  {
    && (DstOf(table[name], v6) != "" ==> DstOf(table[name], v6) == d)
    && (forall inc, a ::
    inc in includes && Reaches(table, inc, a) && a in table && DstOf(table[a], v6) != "" ==> DstOf(table[a], v6) == d)
    && (d != "" ==> DstOf(table[name], v6) == d
                    || exists inc, a ::
                    inc in includes && Reaches(table, inc, a) && a in table && DstOf(table[a], v6) == d)
  }

  ghost predicate Sound(table: Table, name: string, v6: bool) { exists d :: DstFrom(table, name, v6, d) }

  lemma AgreedIffSound(table: Table, name: string, v6: bool)
    ensures Agreed(table, name, v6) <==> Sound(table, name, v6)
  {
    hide Reaches;
    if Agreed(table, name, v6) {
      if a :| Names(table, name, a, v6) {
        forall b | Reaches(table, name, b) && b in table && DstOf(table[b], v6) != ""
          ensures DstOf(table[b], v6) == DstOf(table[a], v6)
        {
          assert Names(table, name, b, v6);
        }
        assert DstFrom(table, name, v6, DstOf(table[a], v6));
      } else {
        forall a | Reaches(table, name, a) && a in table ensures DstOf(table[a], v6) == "" {
          assert !Names(table, name, a, v6);
        }
        assert DstFrom(table, name, v6, "");
      }
    }
  }

  lemma PartExtends(table: Table, name: string, init: seq<string>, inc: string, v6: bool, d: string, e: string)
    requires name in table && PartDst(table, name, init, v6, d) && DstFrom(table, inc, v6, e)
    ensures MergeDst(d, e).Ok? ==> PartDst(table, name, init + [inc], v6, MergeDst(d, e).value)
    ensures MergeDst(d, e).Err? ==> forall x :: !PartDst(table, name, init + [inc], v6, x)
  {
    hide Reaches, DstOf;
    var all := init + [inc];
    assert inc in all && forall i :: i in init ==> i in all;
    if MergeDst(d, e).Ok? {
      var m := MergeDst(d, e).value;
      if m != "" && m == d && DstOf(table[name], v6) != d {
        var i, a :| i in init && Reaches(table, i, a) && a in table && DstOf(table[a], v6) == d;
        assert i in all;
      }
      if m != "" && m != d {
        var a :| Reaches(table, inc, a) && a in table && DstOf(table[a], v6) == e;
        assert inc in all;
      }
    } else {
      forall x ensures !PartDst(table, name, all, v6, x) {
        PartForces(table, name, init, inc, v6, d, e, x);
      }
    }
  }

  lemma PartForces(table: Table, name: string, init: seq<string>, inc: string, v6: bool, d: string, e: string,
      x: string)
    requires name in table && PartDst(table, name, init, v6, d) && DstFrom(table, inc, v6, e) && d != "" && e != ""
    ensures PartDst(table, name, init + [inc], v6, x) ==> x == d && x == e
  {
    hide Reaches, DstOf;
    var all := init + [inc];
    assert inc in all && forall i :: i in init ==> i in all;
    var a :| Reaches(table, inc, a) && a in table && DstOf(table[a], v6) == e;
    if DstOf(table[name], v6) != d {
      var i, b :| i in init && Reaches(table, i, b) && b in table && DstOf(table[b], v6) == d;
      assert i in all;
    }
  }

  // All includes together: the whole service.
  lemma PartWhole(table: Table, name: string, v6: bool, d: string)
    requires name in table
    ensures PartDst(table, name, table[name].includes, v6, d) <==> DstFrom(table, name, v6, d)
  {
    hide Reaches, DstOf;
    forall a
      ensures Reaches(table, name, a) <==>
              a == name || exists inc :: inc in table[name].includes && Reaches(table, inc, a)
    {
      ReachStep(table, name, a);
    }
    if PartDst(table, name, table[name].includes, v6, d) && d != "" && DstOf(table[name], v6) != d {
      var inc, a :| inc in table[name].includes && Reaches(table, inc, a) && a in table && DstOf(table[a], v6) == d;
      assert Reaches(table, name, a);
    }
    if DstFrom(table, name, v6, d) && d != "" && DstOf(table[name], v6) != d {
      var a :| Reaches(table, name, a) && a in table && DstOf(table[a], v6) == d;
      assert a != name;
    }
  }

  // Everything the recursion needs of one service.
  ghost predicate Resolvable(table: Table, name: string, stack: set<string>)
  {
    Grounded(table, name, stack) && Sound(table, name, false) && Sound(table, name, true)
  }

  // resolveService succeeds exactly when every reachable include is
  // defined, the reachable graph has no cycle, and the non-empty
  // destinations agree per family; then it carries those destinations.
  lemma {:induction false} ResolveIff(table: Table, name: string, stack: set<string>)
    ensures Resolve(table, name, stack).Ok? <==> Resolvable(table, name, stack)
    ensures Resolve(table, name, stack).Ok? ==>
              var f := Resolve(table, name, stack).value;
              DstFrom(table, name, false, f.dst4) && DstFrom(table, name, true, f.dst6)
    decreases Left(table, stack), 1, 0
  {
    hide Grounded, DstFrom, PartDst;
    GroundedStep(table, name, stack);
    if name in table && name !in stack {
      LeftShrinks(table, stack, name);
      var s := table[name];
      var start := Flat(s.ports, s.protos, s.dst4, s.dst6, s.modules);
      IncludesIff(table, name, s.includes, stack + {name});
      var r := ResolveIncludes(table, name, start, s.includes, stack + {name});
      forall d, v6 ensures PartDst(table, name, s.includes, v6, d) <==> DstFrom(table, name, v6, d) {
        PartWhole(table, name, v6, d);
      }
    }
  }

  lemma {:induction false} IncludesIff(table: Table, name: string, includes: seq<string>, stack: set<string>)
    requires name in table
    ensures var s := table[name];
            var r := ResolveIncludes(table, name, Flat(s.ports, s.protos, s.dst4, s.dst6, s.modules), includes, stack);
            && (r.Ok? <==> && (forall inc :: inc in includes ==> Grounded(table, inc, stack))
                           && (exists d :: PartDst(table, name, includes, false, d))
                           && exists d :: PartDst(table, name, includes, true, d))
            && (r.Ok? ==>
            PartDst(table, name, includes, false, r.value.dst4) && PartDst(table, name, includes, true, r.value.dst6))
    decreases Left(table, stack), 2, |includes|
  {
    hide Grounded, DstFrom, PartDst, MergeDst;
    var s := table[name];
    var start := Flat(s.ports, s.protos, s.dst4, s.dst6, s.modules);
    if includes == [] {
      PartStart(table, name);
    } else {
      var n := |includes| - 1;
      var init, inc := includes[..n], includes[n];
      assert includes == init + [inc];
      IncludesIff(table, name, init, stack);
      ResolveIff(table, inc, stack);
      LastInclude(table, name, init, inc, stack, ResolveIncludes(table, name, start, init, stack),
          Resolve(table, inc, stack));
    }
  }

  lemma PartStart(table: Table, name: string)
    requires name in table
    ensures PartDst(table, name, [], false, table[name].dst4) && PartDst(table, name, [], true, table[name].dst6)
  {
  }

  lemma PartDrops(table: Table, name: string, init: seq<string>, inc: string, v6: bool)
    requires name in table && exists d :: PartDst(table, name, init + [inc], v6, d)
    ensures (exists d :: PartDst(table, name, init, v6, d)) && Sound(table, inc, v6)
  {
    hide Reaches, DstOf;
    var d :| PartDst(table, name, init + [inc], v6, d);
    var all := init + [inc];
    assert inc in all && forall i :: i in init ==> i in all;
    var e := if exists a :: Reaches(table, inc, a) && a in table && DstOf(table[a], v6) == d then d else "";
    assert DstFrom(table, inc, v6, e);
    var x := if DstOf(table[name], v6) == d || exists i, a ::
        i in init && Reaches(table, i, a) && a in table && DstOf(table[a], v6) == d
             then d else "";
    assert PartDst(table, name, init, v6, x);
  }

  lemma LastInclude(table: Table, name: string, init: seq<string>, inc: string, stack: set<string>, r: Result<Flat>,
      sub: Result<Flat>)
    requires name in table
    requires r.Ok? <==> && (forall i :: i in init ==> Grounded(table, i, stack))
                        && (exists d :: PartDst(table, name, init, false, d)) && exists d ::
                        PartDst(table, name, init, true, d)
    requires r.Ok? ==> PartDst(table, name, init, false, r.value.dst4) && PartDst(table, name, init, true, r.value.dst6)
    requires sub.Ok? <==> Resolvable(table, inc, stack)
    requires sub.Ok? ==> DstFrom(table, inc, false, sub.value.dst4) && DstFrom(table, inc, true, sub.value.dst6)
    ensures var all := init + [inc];
            var m := if r.Err? || sub.Err? then Err else Merge(r.value, sub.value);
            && (m.Ok? <==> && (forall i :: i in all ==> Grounded(table, i, stack))
                           && (exists d :: PartDst(table, name, all, false, d)) && exists d ::
                           PartDst(table, name, all, true, d))
            && (m.Ok? ==>
            PartDst(table, name, all, false, m.value.dst4) && PartDst(table, name, all, true, m.value.dst6))
  {
    hide Grounded, DstFrom, PartDst, MergeDst;
    var all := init + [inc];
    assert inc in all && forall i :: i in init ==> i in all;
    if r.Ok? && sub.Ok? {
      PartExtends(table, name, init, inc, false, r.value.dst4, sub.value.dst4);
      PartExtends(table, name, init, inc, true, r.value.dst6, sub.value.dst6);
    }
    if exists d :: PartDst(table, name, all, false, d) { PartDrops(table, name, init, inc, false); }
    if exists d :: PartDst(table, name, all, true, d) { PartDrops(table, name, init, inc, true); }
  }

  // Every include path ends in a definition and has no repetition.
  ghost predicate Acyclic(table: Table, name: string)
  {
    forall path :: From(table, path, name) ==> path[|path| - 1] in table && NoRepeats(path)
  }

  // The statement in the importer's terms, from an empty stack.
  lemma {:induction false} ServiceResolves(table: Table, name: string)
    ensures Resolve(table, name, {}).Ok? <==>
            Acyclic(table, name) && Agreed(table, name, false) && Agreed(table, name, true)
  {
    hide NoRepeats, Agreed, Sound;
    ResolveIff(table, name, {});
    AgreedIffSound(table, name, false);
    AgreedIffSound(table, name, true);
  }

  // ---- what a resolved service lists ----

  // The include tree in preorder; names already on the stack or undefined
  // do not occur when resolution succeeds.
  function Preorder(table: Table, name: string, stack: set<string>): seq<string>
    decreases Left(table, stack), 1, 0
  {
    if name in stack || name !in table then [name]
    else
      LeftShrinks(table, stack, name);
      [name] + PreorderAll(table, table[name].includes, stack + {name})
  }

  function PreorderAll(table: Table, names: seq<string>, stack: set<string>): seq<string>
    decreases Left(table, stack), 2, |names|
  {
    if names == [] then []
    else PreorderAll(table, names[..|names| - 1], stack) + Preorder(table, names[|names| - 1], stack)
  }

  function PortsOf(table: Table, names: seq<string>): seq<PortRange>
  {
    if names == [] then []
    else (if names[0] in table then table[names[0]].ports else []) + PortsOf(table, names[1..])
  }

  function ProtosOf(table: Table, names: seq<string>): seq<string>
  {
    if names == [] then []
    else (if names[0] in table then table[names[0]].protos else []) + ProtosOf(table, names[1..])
  }

  lemma {:induction false} ListsAppend(table: Table, a: seq<string>, b: seq<string>)
    ensures PortsOf(table, a + b) == PortsOf(table, a) + PortsOf(table, b)
    ensures ProtosOf(table, a + b) == ProtosOf(table, a) + ProtosOf(table, b)
  {
    if a == [] {
      assert a + b == b;
    } else {
      assert (a + b)[1..] == a[1..] + b;
      ListsAppend(table, a[1..], b);
    }
  }

  // Ports and protocols are those of the include tree in preorder.
  lemma {:induction false} ResolvedLists(table: Table, name: string, stack: set<string>)
    requires Resolve(table, name, stack).Ok?
    ensures var f := Resolve(table, name, stack).value;
            && f.ports == PortsOf(table, Preorder(table, name, stack))
            && f.protos == ProtosOf(table, Preorder(table, name, stack))
    decreases Left(table, stack), 1, 0
  {
    LeftShrinks(table, stack, name);
    var s := table[name];
    var rest := PreorderAll(table, s.includes, stack + {name});
    IncludedLists(table, name, s.includes, stack + {name});
    ListsAppend(table, [name], rest);
    assert [name][1..] == [];
    assert PortsOf(table, [name]) == s.ports + PortsOf(table, []) == s.ports;
    assert ProtosOf(table, [name]) == s.protos + ProtosOf(table, []) == s.protos;
  }

  lemma {:induction false} IncludedLists(table: Table, name: string, includes: seq<string>, stack: set<string>)
    requires name in table
    requires var s := table[name];
             ResolveIncludes(table, name, Flat(s.ports, s.protos, s.dst4, s.dst6, s.modules), includes, stack).Ok?
    ensures var s := table[name];
            var f := ResolveIncludes(table, name, Flat(s.ports, s.protos, s.dst4, s.dst6, s.modules), includes,
                stack).value;
            && f.ports == s.ports + PortsOf(table, PreorderAll(table, includes, stack))
            && f.protos == s.protos + ProtosOf(table, PreorderAll(table, includes, stack))
    decreases Left(table, stack), 2, |includes|
  {
    hide MergeDst;
    var s := table[name];
    if includes != [] {
      var n := |includes| - 1;
      IncludedLists(table, name, includes[..n], stack);
      ResolvedLists(table, includes[n], stack);
      ListsAppend(table, PreorderAll(table, includes[..n], stack), Preorder(table, includes[n], stack));
    }
  }

  // What a definition lists.
  datatype Item = PortItem(port: PortRange) | ProtoItem(proto: string) | ModuleItem(name: string)

  predicate Lists(s: Service, x: Item)
  {
    match x
    case PortItem(p) => p in s.ports
    case ProtoItem(q) => q in s.protos
    case ModuleItem(m) => m in s.modules
  }

  predicate Carries(f: Flat, x: Item)
  {
    match x
    case PortItem(p) => p in f.ports
    case ProtoItem(q) => q in f.protos
    case ModuleItem(m) => m in f.modules
  }

  // Some definition within reach lists it.
  ghost predicate Offers(table: Table, name: string, x: Item)
  {
    exists a :: Reaches(table, name, a) && a in table && Lists(table[a], x)
  }

  lemma OffersStep(table: Table, name: string, x: Item)
    requires name in table
    ensures Offers(table, name, x) <==>
            Lists(table[name], x) || exists inc :: inc in table[name].includes && Offers(table, inc, x)
  {
    hide Reaches, Lists;
    ReachStep(table, name, name);
    if Offers(table, name, x) {
      var a :| Reaches(table, name, a) && a in table && Lists(table[a], x);
      ReachStep(table, name, a);
    }
    if inc :| inc in table[name].includes && Offers(table, inc, x) {
      var a :| Reaches(table, inc, a) && a in table && Lists(table[a], x);
      ReachStep(table, name, a);
    }
  }

  lemma MergeCarries(f: Flat, sub: Flat, x: Item)
    ensures Merge(f, sub).Ok? ==> (Carries(Merge(f, sub).value, x) <==> Carries(f, x) || Carries(sub, x))
  {
    hide MergeDst;
  }

  // A resolved service carries exactly what the definitions in its reach
  // list.
  lemma {:induction false} ResolvedOffers(table: Table, name: string, stack: set<string>, x: Item)
    requires Resolve(table, name, stack).Ok?
    ensures Carries(Resolve(table, name, stack).value, x) <==> Offers(table, name, x)
    decreases Left(table, stack), 1, 0
  {
    hide Offers;
    LeftShrinks(table, stack, name);
    IncludedOffers(table, name, table[name].includes, stack + {name}, x);
    OffersStep(table, name, x);
  }

  lemma {:induction false} IncludedOffers(table: Table, name: string, includes: seq<string>, stack: set<string>,
      x: Item)
    requires name in table
    requires var s := table[name];
             ResolveIncludes(table, name, Flat(s.ports, s.protos, s.dst4, s.dst6, s.modules), includes, stack).Ok?
    ensures var s := table[name];
            Carries(ResolveIncludes(table, name, Flat(s.ports, s.protos, s.dst4, s.dst6, s.modules), includes,
                stack).value, x)
            <==> Lists(s, x) || exists inc :: inc in includes && Offers(table, inc, x)
    decreases Left(table, stack), 2, |includes|
  {
    hide Merge, Offers;
    if includes != [] {
      var n := |includes| - 1;
      var s := table[name];
      var start := Flat(s.ports, s.protos, s.dst4, s.dst6, s.modules);
      IncludedOffers(table, name, includes[..n], stack, x);
      ResolvedOffers(table, includes[n], stack, x);
      MergeCarries(ResolveIncludes(table, name, start, includes[..n], stack).value,
                   Resolve(table, includes[n], stack).value, x);
      assert includes == includes[..n] + [includes[n]];
    }
  }
}
