/** Expanding a rewritten stream back: `_expand_one` and `_expand_macros` of
    `generators/reading.py`, and why rewriting loses nothing. */
module Expansion {
  import opened Templates
  import opened Rewriting
  import opened Wrappers

  const EXPANSION_DEPTH_BOUND: nat := 16

  type Table = map<string, Macro>

  /** An object whose kind is "macro" is an invocation. */
  predicate IsMacroLf(lf: Json) {
    lf.Obj? && "kind" in lf.fields && lf.fields["kind"] == Str("macro")
  }

  /** The arguments of an invocation when they are an object; missing or falsy ones count as none. */
  function ArgsOf(lf: Json): Option<Binding>
    requires lf.Obj?
  {
    if "args" !in lf.fields then Some(map[])
    else
      match lf.fields["args"]
      case Obj(args) => Some(args)
      case Null => Some(map[])
      case Bool(b) => if b then None else Some(map[])
      case Num(n) => if n == 0.0 then Some(map[]) else None
      case Str(s) => if s == [] then Some(map[]) else None
      case Arr(items) => if items == [] then Some(map[]) else None
  }

  /** `_expand_one`: the substituted body, or nothing where it raises BadReading. */
  function ExpandOne(lf: Json, table: Table): Option<seq<Json>>
    requires lf.Obj?
  {
    if !(lf.fields.Keys <= {"kind", "name", "args"}) || "name" !in lf.fields || !lf.fields["name"].Str?
       || lf.fields["name"].s !in table || ArgsOf(lf).None? then None
    else
      var m, args := table[lf.fields["name"].s], ArgsOf(lf).value;
      if (exists p :: p in m.params && p !in args) || !(Params(Arr(m.body)) <= args.Keys) then None
      else Some(Subst(Arr(m.body), args).items)
  }

  /** What Python takes for false. */
  predicate Falsy(x: Json) {
    x == Null || x == Bool(false) || x == Num(0.0) || x == Str("") || x == Arr([]) || x == Obj(map[])
  }

  /** `args` are the arguments: the object that is given, and none for a missing or false value. */
  predicate GivesArgs(lf: Json, args: Binding)
    requires lf.Obj?
  {
    if "args" in lf.fields && lf.fields["args"].Obj? then lf.fields["args"] == Obj(args)
    else args == map[] && ("args" in lf.fields ==> Falsy(lf.fields["args"]))
  }

  /** The form invokes the macro of the table with these arguments, and has no other field. */
  predicate Invocates(lf: Json, table: Table, m: Macro, args: Binding)
    requires lf.Obj?
  {
    && (forall k | k in lf.fields :: k == "kind" || k == "name" || k == "args")
    && "name" in lf.fields && lf.fields["name"].Str?
    && lf.fields["name"].s in table && table[lf.fields["name"].s] == m
    && GivesArgs(lf, args)
  }

  lemma ArgsAre(lf: Json, args: Binding)
    requires lf.Obj?
    ensures ArgsOf(lf) == Some(args) <==> GivesArgs(lf, args)
  {
  }

  /** WHICH INVOCATIONS EXPAND, AND TO WHAT: those of a macro of the table with an argument for each of its
      parameters and placeholders; and the result is what each template fits under the arguments. */
  lemma ExpandsExactly(lf: Json, table: Table, m: Macro, args: Binding)
    requires lf.Obj? && Invocates(lf, table, m, args)
    ensures ExpandOne(lf, table).Some?
      <==> (forall p | p in m.params :: p in args) && (forall p | p in Params(Arr(m.body)) :: p in args)
    ensures ExpandOne(lf, table).Some? ==> Fits(Arr(m.body), Arr(ExpandOne(lf, table).value), args)
  {
    ArgsAre(lf, args);
    FitsIsSubst(Arr(m.body), Subst(Arr(m.body), args), args);
    hide Params, Fits, GivesArgs, ArgsOf;
  }

  lemma NothingElseExpands(lf: Json, table: Table)
    requires lf.Obj? && ExpandOne(lf, table).Some?
    ensures exists m, args :: Invocates(lf, table, m, args)
  {
    var m, args := table[lf.fields["name"].s], ArgsOf(lf).value;
    ArgsAre(lf, args);
    hide Params, GivesArgs, ArgsOf;
    assert Invocates(lf, table, m, args);
  }

  function Joined(a: Option<seq<Json>>, b: Option<seq<Json>>): Option<seq<Json>> {
    if a.None? || b.None? then None else Some(a.value + b.value)
  }

  lemma JoinedLaws(a: Option<seq<Json>>, b: Option<seq<Json>>, c: Option<seq<Json>>)
    ensures Joined(Joined(a, b), c) == Joined(a, Joined(b, c))
    ensures Joined(Some([]), a) == a == Joined(a, Some([]))
  {
    if a.Some? && b.Some? && c.Some? {
      assert (a.value + b.value) + c.value == a.value + (b.value + c.value);
    }
    if a.Some? {
      assert [] + a.value == a.value == a.value + [];
    }
  }

  /** One linear pass over a stream of logical forms. */
  ghost function ExpandPass(lfs: seq<Json>, table: Table): Option<seq<Json>> {
    if lfs == [] then Some([])
    else
      var n := |lfs| - 1;
      Joined(ExpandPass(lfs[..n], table), if IsMacroLf(lfs[n]) then ExpandOne(lfs[n], table) else Some([lfs[n]]))
  }

  /** Every invocation expanded transitively, at most `d` levels deep. */
  ghost function ExpandAll(d: nat, lfs: seq<Json>, table: Table): Option<seq<Json>>
    decreases d, |lfs|
  {
    if lfs == [] then Some([])
    else
      Joined(ExpandAll(d, lfs[..|lfs| - 1], table), LastExpanded(d, lfs, table))
  }

  ghost function LastExpanded(d: nat, lfs: seq<Json>, table: Table): Option<seq<Json>>
    requires lfs != []
    decreases d, |lfs|, 0
  {
    var lf := lfs[|lfs| - 1];
    if !IsMacroLf(lf) then Some([lf])
    else if d == 0 || ExpandOne(lf, table).None? then None
    else ExpandAll(d - 1, ExpandOne(lf, table).value, table)
  }

  /** What `_expand_macros` returns with a given number of passes. */
  ghost function Expanded(bound: nat, lfs: seq<Json>, table: Table): Option<seq<Json>> {
    if bound == 0 then None else ExpandAll(bound - 1, lfs, table)
  }

  method ExpandPassLoop(lfs: seq<Json>, table: Table) returns (r: Option<seq<Json>>)
    ensures r == ExpandPass(lfs, table)
  {
    var out: seq<Json> := [];
    for i := 0 to |lfs|
      invariant ExpandPass(lfs[..i], table) == Some(out)
    {
      assert lfs[..i + 1][..i] == lfs[..i];
      if IsMacroLf(lfs[i]) {
        var one := ExpandOne(lfs[i], table);
        if one.None? {
          PassFails(lfs, i + 1, table);
          return None;
        }
        out := out + one.value;
      } else {
        out := out + [lfs[i]];
      }
    }
    assert lfs[..|lfs|] == lfs;
    return Some(out);
  }

  lemma {:induction false} PassFails(lfs: seq<Json>, i: nat, table: Table)
    requires i <= |lfs| && ExpandPass(lfs[..i], table).None?
    ensures ExpandPass(lfs, table).None?
    decreases |lfs| - i
  {
    if i < |lfs| {
      assert lfs[..i + 1][..i] == lfs[..i];
      PassFails(lfs, i + 1, table);
    } else {
      assert lfs[..i] == lfs;
    }
  }

  /** `_expand_macros` on logical forms. The check for leftover invocations precedes each pass and
      none follows the last, so `bound` passes resolve bound - 1 levels. */
  method ExpandMacros(lfs: seq<Json>, table: Table, bound: nat) returns (r: Option<seq<Json>>)
    ensures r == Expanded(bound, lfs, table)
  {
    var cur := lfs;
    for i := 0 to bound
      invariant Expanded(bound, lfs, table) == Expanded(bound - i, cur, table)
    {
      if !(exists lf :: lf in cur && IsMacroLf(lf)) {
        NothingToExpand(bound - i - 1, cur, table);
        return Some(cur);
      }
      if i < bound - 1 {
        PassPeels(bound - i - 2, cur, table);
      } else {
        NoDepthLeft(cur, table);
      }
      var next := ExpandPassLoop(cur, table);
      if next.None? {
        return None;
      }
      cur := next.value;
    }
    return None;
  }

  lemma {:induction false} NothingToExpand(d: nat, lfs: seq<Json>, table: Table)
    requires forall lf | lf in lfs :: !IsMacroLf(lf)
    ensures ExpandAll(d, lfs, table) == Some(lfs)
  {
    hide IsMacroLf, ExpandOne;
    if lfs != [] {
      var n := |lfs| - 1;
      assert lfs == lfs[..n] + [lfs[n]];
      NothingToExpand(d, lfs[..n], table);
    }
  }

  lemma {:induction false} NoDepthLeft(lfs: seq<Json>, table: Table)
    requires exists lf :: lf in lfs && IsMacroLf(lf)
    ensures ExpandAll(0, lfs, table).None?
  {
    var n := |lfs| - 1;
    if !IsMacroLf(lfs[n]) {
      var lf :| lf in lfs && IsMacroLf(lf);
      assert lf in lfs[..n];
      NoDepthLeft(lfs[..n], table);
    }
  }

  lemma {:induction false} ExpandAllConcat(d: nat, a: seq<Json>, b: seq<Json>, table: Table)
    ensures ExpandAll(d, a + b, table) == Joined(ExpandAll(d, a, table), ExpandAll(d, b, table))
    decreases |b|
  {
    if b == [] {
      assert a + b == a;
      JoinedLaws(ExpandAll(d, a, table), None, None);
    } else {
      var n := |b| - 1;
      assert (a + b)[..|a + b| - 1] == a + b[..n];
      ExpandAllConcat(d, a, b[..n], table);
      JoinedLaws(ExpandAll(d, a, table), ExpandAll(d, b[..n], table), LastExpanded(d, b, table));
    }
  }

  /** A breadth-first pass peels one level off the depth-first expansion. */
  lemma {:induction false} PassPeels(d: nat, lfs: seq<Json>, table: Table)
    ensures ExpandAll(d + 1, lfs, table)
      == if ExpandPass(lfs, table).None? then None else ExpandAll(d, ExpandPass(lfs, table).value, table)
    decreases |lfs|
  {
    if lfs != [] {
      var n := |lfs| - 1;
      PassPeels(d, lfs[..n], table);
      var rest := ExpandPass(lfs[..n], table);
      var one := if IsMacroLf(lfs[n]) then ExpandOne(lfs[n], table) else Some([lfs[n]]);
      if rest.Some? && one.Some? {
        ExpandAllConcat(d, rest.value, one.value, table);
        if !IsMacroLf(lfs[n]) {
          NothingToExpand(d, [lfs[n]], table);
        }
      }
    }
  }

  lemma {:induction false} DeeperIsSame(d: nat, lfs: seq<Json>, table: Table)
    requires ExpandAll(d, lfs, table).Some?
    ensures ExpandAll(d + 1, lfs, table) == ExpandAll(d, lfs, table)
    decreases d, |lfs|
  {
    if lfs != [] {
      var n := |lfs| - 1;
      DeeperIsSame(d, lfs[..n], table);
      if IsMacroLf(lfs[n]) {
        DeeperIsSame(d - 1, ExpandOne(lfs[n], table).value, table);
      }
    }
  }

  // ---------------------------------------------------------------- lossless

  /** The table the macros were taken from. */
  ghost predicate Tabled(macros: seq<Macro>, table: Table) {
    forall m | m in macros :: m.name in table && table[m.name] == m
  }

  /** The invocation a match leaves behind expands to exactly the window it replaced. */
  lemma MatchExpands(stmts: seq<Item>, i: nat, m: Macro, binding: Binding, table: Table)
    requires IsMatch(stmts, i, m, binding) && m.name in table && table[m.name] == m
    ensures ExpandOne(InvocationLf(m.name, binding), table) == Some(Window(stmts, i, |m.body|))
  {
    FitsIsSubst(Arr(m.body), Arr(Window(stmts, i, |m.body|)), binding);
    var lf := InvocationLf(m.name, binding);
    assert lf.fields.Keys == {"kind", "name", "args"};
  }

  lemma {:induction false} PassIsLossless(d: nat, stmts: seq<Item>, macros: seq<Macro>, table: Table, i: nat)
    requires Bodied(macros) && Tabled(macros, table) && i <= |stmts|
    requires ExpandAll(d, Lfs(stmts[i..]), table).Some?
    ensures ExpandAll(d + 1, Lfs(Emitted(stmts, Trace(stmts, macros, i))), table) == ExpandAll(d, Lfs(stmts[i..]), table)
    decreases |stmts| - i
  {
    hide ExpandAll, Trace, Emitted, Joined, OriginRight, Tabled, Bodied, ItemOf, Lfs;
    EmittedStep(stmts, macros, i);
    if i < |stmts| {
      var o := OriginAt(stmts, macros, i);
      var w := Width(o);
      InsideStream(stmts, macros, o);
      SplitAt(d, stmts, i, w, table);
      var rest := Lfs(Emitted(stmts, Trace(stmts, macros, i + w)));
      assert ExpandAll(d, Window(stmts, i, w), table).Some? && ExpandAll(d, Lfs(stmts[i + w..]), table).Some? by {
        JoinedSome(ExpandAll(d, Window(stmts, i, w), table), ExpandAll(d, Lfs(stmts[i + w..]), table));
      }
      PassIsLossless(d, stmts, macros, table, i + w);
      OriginExpands(d, stmts, macros, table, o);
      ExpandAllConcat(d + 1, [LfOf(ItemOf(stmts, o))], rest, table);
    } else {
      NothingToExpand(d + 1, [], table);
      NothingToExpand(d, [], table);
    }
  }

  lemma JoinedSome(a: Option<seq<Json>>, b: Option<seq<Json>>)
    ensures Joined(a, b).Some? <==> a.Some? && b.Some?
  {
  }

  lemma InsideStream(stmts: seq<Item>, macros: seq<Macro>, o: Origin)
    requires OriginRight(stmts, macros, o)
    ensures o.pos + Width(o) <= |stmts|
  {
  }

  lemma EmittedStep(stmts: seq<Item>, macros: seq<Macro>, i: nat)
    requires Bodied(macros) && i <= |stmts|
    ensures i == |stmts| ==> Lfs(stmts[i..]) == [] == Lfs(Emitted(stmts, Trace(stmts, macros, i)))
    ensures i < |stmts| ==> var o := OriginAt(stmts, macros, i);
      Lfs(Emitted(stmts, Trace(stmts, macros, i)))
      == [LfOf(ItemOf(stmts, o))] + Lfs(Emitted(stmts, Trace(stmts, macros, i + Width(o))))
  {
    hide LfOf, ItemOf, OriginRight, OriginAt;
    if i < |stmts| {
      var o := OriginAt(stmts, macros, i);
      var rest := Emitted(stmts, Trace(stmts, macros, i + Width(o)));
      assert Emitted(stmts, Trace(stmts, macros, i)) == [ItemOf(stmts, o)] + rest;
    }
  }

  lemma SplitAt(d: nat, stmts: seq<Item>, i: nat, w: nat, table: Table)
    requires i + w <= |stmts|
    ensures ExpandAll(d, Lfs(stmts[i..]), table)
      == Joined(ExpandAll(d, Window(stmts, i, w), table), ExpandAll(d, Lfs(stmts[i + w..]), table))
  {
    assert Lfs(stmts[i..]) == Window(stmts, i, w) + Lfs(stmts[i + w..]);
    ExpandAllConcat(d, Window(stmts, i, w), Lfs(stmts[i + w..]), table);
  }

  lemma OriginExpands(d: nat, stmts: seq<Item>, macros: seq<Macro>, table: Table, o: Origin)
    requires Tabled(macros, table) && OriginRight(stmts, macros, o) && o.pos + Width(o) <= |stmts|
    requires ExpandAll(d, Window(stmts, o.pos, Width(o)), table).Some?
    ensures ExpandAll(d + 1, [LfOf(ItemOf(stmts, o))], table) == ExpandAll(d, Window(stmts, o.pos, Width(o)), table)
  {
    var lf := LfOf(ItemOf(stmts, o));
    if o.Made? {
      MatchExpands(stmts, o.pos, o.macro, o.args, table);
      assert [lf][..0] == [];
      assert ExpandAll(d + 1, [], table) == Some([]);
      assert IsMacroLf(lf);
      JoinedLaws(LastExpanded(d + 1, [lf], table), None, None);
    } else {
      assert Window(stmts, o.pos, 1) == [lf];
      DeeperIsSame(d, [lf], table);
    }
  }

  /** LOSSLESS REWRITING. After any number of passes, over any table (even a cyclic one), expanding
      every invocation transitively by its binding gives exactly the original logical forms. */
  lemma {:induction false} Lossless(stmts: seq<Item>, macros: seq<Macro>, table: Table, k: nat)
    requires Bodied(macros) && Tabled(macros, table)
    requires forall lf | lf in Lfs(stmts) :: !IsMacroLf(lf)
    ensures ExpandAll(k, Lfs(PassN(stmts, macros, k)), table) == Some(Lfs(stmts))
  {
    if k == 0 {
      NothingToExpand(0, Lfs(stmts), table);
    } else {
      Lossless(stmts, macros, table, k - 1);
      var before := PassN(stmts, macros, k - 1);
      assert before[0..] == before;
      PassIsLossless(k - 1, before, macros, table, 0);
    }
  }

  // ---------------------------------------------------------------- the depth bound

  /** How deep invocations nest, looking at most `fuel` levels down. */
  ghost function Depth(fuel: nat, lfs: seq<Json>, table: Table): nat
    decreases fuel, |lfs|
  {
    if lfs == [] then 0
    else
      var n := |lfs| - 1;
      var here :=
        if !IsMacroLf(lfs[n]) then 0
        else if fuel == 0 || ExpandOne(lfs[n], table).None? then 1
        else 1 + Depth(fuel - 1, ExpandOne(lfs[n], table).value, table);
      var before := Depth(fuel, lfs[..n], table);
      if here > before then here else before
  }

  lemma {:induction false} DepthDecides(k: nat, d: nat, lfs: seq<Json>, table: Table)
    requires ExpandAll(k, lfs, table).Some?
    ensures Depth(k, lfs, table) <= k
    ensures ExpandAll(d, lfs, table) == if Depth(k, lfs, table) <= d then ExpandAll(k, lfs, table) else None
    decreases k, |lfs|
  {
    if lfs != [] {
      var n := |lfs| - 1;
      DepthDecides(k, d, lfs[..n], table);
      if IsMacroLf(lfs[n]) && d > 0 {
        DepthDecides(k - 1, d - 1, ExpandOne(lfs[n], table).value, table);
      } else if IsMacroLf(lfs[n]) {
        DepthDecides(k - 1, 0, ExpandOne(lfs[n], table).value, table);
      }
    }
  }

  /** ROUND TRIP, EXACTLY. `_expand_macros` with `bound` passes gives back the original logical forms
      of a stream rewritten k times if and only if its invocations nest less than `bound` deep, and
      never gives anything else. */
  lemma RoundTrip(stmts: seq<Item>, macros: seq<Macro>, table: Table, k: nat, bound: nat)
    requires Bodied(macros) && Tabled(macros, table)
    requires forall lf | lf in Lfs(stmts) :: !IsMacroLf(lf)
    ensures var out := Lfs(PassN(stmts, macros, k));
      && Depth(k, out, table) <= k
      && Expanded(bound, out, table) == if Depth(k, out, table) < bound then Some(Lfs(stmts)) else None
  {
    Lossless(stmts, macros, table, k);
    if bound > 0 {
      DepthDecides(k, bound - 1, Lfs(PassN(stmts, macros, k)), table);
    } else {
      DepthDecides(k, 0, Lfs(PassN(stmts, macros, k)), table);
    }
  }

  // ---------------------------------------------------------------- a tower that is refused

  const LEAF: Json := Obj(map["kind" := Str("leaf")])

  function TowerName(i: nat): (name: string)
    ensures |name| == i + 1 && name[0] == 'm'
  {
    if i == 0 then "m" else TowerName(i - 1) + "m"
  }

  /** Level 0 stands for the leaf, every other level for an invocation of the level below. */
  function TowerBody(i: nat): Json {
    if i == 0 then LEAF else InvocationLf(TowerName(i - 1), map[])
  }

  function TowerTable(n: nat): Table {
    if n == 0 then map[] else TowerTable(n - 1)[TowerName(n - 1) := Macro(TowerName(n - 1), [], [TowerBody(n - 1)])]
  }

  lemma {:induction false} TowerEntry(n: nat, i: nat)
    requires i < n
    ensures TowerName(i) in TowerTable(n) && TowerTable(n)[TowerName(i)] == Macro(TowerName(i), [], [TowerBody(i)])
  {
    if i < n - 1 {
      TowerEntry(n - 1, i);
      assert |TowerName(i)| != |TowerName(n - 1)|;
    }
  }

  lemma NothingToSubstitute(i: nat)
    ensures Params(Arr([TowerBody(i)])) == {} && Subst(Arr([TowerBody(i)]), map[]) == Arr([TowerBody(i)])
    ensures IsMacroLf(TowerBody(i)) <==> i > 0
  {
    var body := TowerBody(i);
    assert |"leaf"| != |"macro"|;
    forall k | k in body.fields ensures Fits(body.fields[k], body.fields[k], map[]) {
    }
    assert Fits(body, body, map[]);
    FitsIsSubst(Arr([body]), Arr([body]), map[]);
  }

  /** One level of the tower. */
  lemma TowerStep(n: nat, i: nat)
    requires i < n
    ensures ExpandOne(InvocationLf(TowerName(i), map[]), TowerTable(n)) == Some([TowerBody(i)])
  {
    TowerEntry(n, i);
    NothingToSubstitute(i);
  }

  lemma SingleExpands(d: nat, lf: Json, table: Table)
    ensures !IsMacroLf(lf) ==> ExpandAll(d, [lf], table) == Some([lf]) && Depth(d, [lf], table) == 0
    ensures IsMacroLf(lf) && d > 0 && ExpandOne(lf, table).Some? ==>
      && ExpandAll(d, [lf], table) == ExpandAll(d - 1, ExpandOne(lf, table).value, table)
      && Depth(d, [lf], table) == 1 + Depth(d - 1, ExpandOne(lf, table).value, table)
  {
    assert [lf][..0] == [];
    JoinedLaws(LastExpanded(d, [lf], table), None, None);
  }

  lemma LevelBody(i: nat)
    ensures TowerBody(i) == if i == 0 then LEAF else InvocationLf(TowerName(i - 1), map[])
  {
    hide InvocationLf;
  }

  lemma InvocationIsMacro(name: string)
    ensures IsMacroLf(InvocationLf(name, map[]))
  {
    assert |"kind"| == 4 && |"name"| == 4 && "kind"[0] != "name"[0] && "kind"[0] != "args"[0];
  }

  lemma {:induction false} TowerExpands(n: nat, i: nat)
    requires i < n
    ensures ExpandAll(i + 1, [InvocationLf(TowerName(i), map[])], TowerTable(n)) == Some([LEAF])
    ensures Depth(i + 1, [InvocationLf(TowerName(i), map[])], TowerTable(n)) == i + 1
  {
    hide *;
    var lf := InvocationLf(TowerName(i), map[]);
    LevelBody(i);
    InvocationIsMacro(TowerName(i));
    TowerStep(n, i);
    NothingToSubstitute(i);
    SingleExpands(i + 1, lf, TowerTable(n));
    if i > 0 {
      TowerExpands(n, i - 1);
    } else {
      SingleExpands(0, LEAF, TowerTable(n));
    }
  }

  lemma {:induction false} TowerMacro(n: nat, name: string) returns (i: nat)
    requires name in TowerTable(n)
    ensures i < n && TowerTable(n)[name] == Macro(TowerName(i), [], [TowerBody(i)])
  {
    if name == TowerName(n - 1) {
      i := n - 1;
    } else {
      i := TowerMacro(n - 1, name);
    }
  }

  /** Levels by the length of their names. */
  ghost predicate TowerRanked(n: nat) {
    forall macros: seq<Macro> | AllFrom(macros, TowerTable(n)) :: Ranked(macros, (name: string) => |name|)
  }

  ghost predicate AllFrom(macros: seq<Macro>, table: Table) {
    forall m | m in macros :: m in table.Values
  }

  /** Each level invokes the one below, so the tower is acyclic. */
  lemma TowerAcyclic(n: nat)
    ensures TowerRanked(n)
  {
    hide TowerTable;
    forall macros: seq<Macro> | AllFrom(macros, TowerTable(n)) ensures Ranked(macros, (name: string) => |name|) {
      forall m: Macro, m': Macro, t | m in macros && m' in macros && t in m.body && Invokes(t, m'.name)
        ensures |m'.name| < |m.name|
      {
        var name :| name in TowerTable(n) && TowerTable(n)[name] == m;
        var i := TowerMacro(n, name);
        LevelInvokes(i, m'.name);
      }
    }
  }

  lemma LevelInvokes(i: nat, name: string)
    requires Invokes(TowerBody(i), name)
    ensures |name| < |TowerName(i)|
  {
    assert |"leaf"| != |"macro"|;
  }

  /** An acyclic table of sixteen levels expands in sixteen levels, and is refused by the default bound. */
  lemma DeepTowerRefused()
    ensures TowerRanked(16)
    ensures var lfs := [InvocationLf(TowerName(15), map[])];
      && ExpandAll(16, lfs, TowerTable(16)) == Some([LEAF])
      && Expanded(EXPANSION_DEPTH_BOUND, lfs, TowerTable(16)) == None
  {
    TowerAcyclic(16);
    TowerExpands(16, 15);
    hide TowerRanked;
    DepthDecides(16, 15, [InvocationLf(TowerName(15), map[])], TowerTable(16));
  }
}
