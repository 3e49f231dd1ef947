/** Greedy macro rewriting of statement streams: `_match_at`, `_macro_sig`, `_rewrite_pass` and the
    fixpoint loop of `_reading_stats` in `buildloop/mdl_macros.py`. */
module Rewriting {
  import opened Order
  import opened Templates
  import opened Wrappers

  datatype Macro = Macro(name: string, params: seq<string>, body: seq<Json>)

  /** A statement of a stream: an authored one, or an invocation standing for a matched window
      (`nParams` is the tag "_inv" the pricing reads). */
  datatype Item =
    | Raw(stmt: Json)
    | Invocation(name: string, args: Binding, nParams: nat)

  /** The logical form of an invocation. */
  function InvocationLf(name: string, args: Binding): Json {
    Obj(map["kind" := Str("macro"), "name" := Str(name), "args" := Obj(args)])
  }

  /** `_lf_of` */
  function LfOf(item: Item): Json {
    match item
    case Raw(stmt) => if stmt.Obj? && "lf" in stmt.fields then stmt.fields["lf"] else stmt
    case Invocation(name, args, _) => InvocationLf(name, args)
  }

  function Lfs(stmts: seq<Item>): seq<Json> {
    seq(|stmts|, i requires 0 <= i < |stmts| => LfOf(stmts[i]))
  }

  /** The logical forms of the `n` statements from position `i` on. */
  function Window(stmts: seq<Item>, i: nat, n: nat): seq<Json>
    requires i + n <= |stmts|
  {
    Lfs(stmts[i..i + n])
  }

  /** `binding` makes the whole body of the macro the window at `i`, covers exactly the placeholders
      of the body, and covers every declared parameter. */
  ghost predicate IsMatch(stmts: seq<Item>, i: nat, m: Macro, binding: Binding) {
    && i + |m.body| <= |stmts|
    && (forall j | i <= j < i + |m.body| :: LfOf(stmts[j]).Obj?)
    && Fits(Arr(m.body), Arr(Window(stmts, i, |m.body|)), binding)
    && binding.Keys == Params(Arr(m.body))
    && forall p | p in m.params :: p in binding
  }

  ghost predicate Matches(stmts: seq<Item>, i: nat, m: Macro) {
    exists binding :: IsMatch(stmts, i, m, binding)
  }

  ghost function MatchOf(stmts: seq<Item>, i: nat, m: Macro): (binding: Binding)
    requires Matches(stmts, i, m)
    ensures IsMatch(stmts, i, m, binding)
  {
    var binding :| IsMatch(stmts, i, m, binding);
    binding
  }

  lemma MatchUnique(stmts: seq<Item>, i: nat, m: Macro, binding: Binding)
    requires IsMatch(stmts, i, m, binding)
    ensures Matches(stmts, i, m) && MatchOf(stmts, i, m) == binding
  {
    FitsDetermines(Arr(m.body), Arr(Window(stmts, i, |m.body|)), binding, MatchOf(stmts, i, m));
  }

  lemma NotAnObject(stmts: seq<Item>, i: nat, m: Macro, j: nat)
    requires j < |m.body| && i + |m.body| <= |stmts| && !LfOf(stmts[i + j]).Obj?
    ensures !Matches(stmts, i, m)
  {
  }

  /** The template at `j` fits under no extension of what the ones before it bound. */
  lemma TemplateFails(stmts: seq<Item>, i: nat, m: Macro, j: nat, binding: Binding, after: Binding)
    requires j < |m.body| && i + |m.body| <= |stmts|
    requires ItemsUnified(Arr(m.body), Arr(Window(stmts, i, |m.body|)), map[], j, binding)
    requires Unified(m.body[j], LfOf(stmts[i + j]), binding, false, after)
    ensures !Matches(stmts, i, m)
  {
    hide Params, LfOf, ItemsUnified;
    var t, c := Arr(m.body), Arr(Window(stmts, i, |m.body|));
    assert c.items[j] == LfOf(stmts[i + j]);
    forall b ensures !IsMatch(stmts, i, m, b) {
      if Fits(t, c, b) {
        ItemsLeast(t, c, map[], j, binding, b);
      }
    }
  }

  /** All templates fit: the macro matches exactly if the parameters are bound. */
  lemma TemplatesFit(stmts: seq<Item>, i: nat, m: Macro, binding: Binding)
    requires i + |m.body| <= |stmts| && forall l | i <= l < i + |m.body| :: LfOf(stmts[l]).Obj?
    requires ItemsUnified(Arr(m.body), Arr(Window(stmts, i, |m.body|)), map[], |m.body|, binding)
    ensures (forall p | p in m.params :: p in binding) ==> IsMatch(stmts, i, m, binding)
    ensures (exists p :: p in m.params && p !in binding) ==> !Matches(stmts, i, m)
  {
    hide Params, LfOf, Fits;
    ItemsAllUnified(Arr(m.body), Arr(Window(stmts, i, |m.body|)), map[], binding);
  }

  /** `_match_at`: the binding when the body matches, nothing otherwise. */
  method MatchAt(stmts: seq<Item>, i: nat, m: Macro) returns (r: Option<Binding>)
    requires i <= |stmts|
    ensures r == if Matches(stmts, i, m) then Some(MatchOf(stmts, i, m)) else None
  {
    if i + |m.body| > |stmts| {
      return None;
    }
    hide Params, LfOf, ItemsUnified, Unified, IsMatch, Matches;
    ghost var t, c := Arr(m.body), Arr(Window(stmts, i, |m.body|));
    var binding: Binding := map[];
    NoItemsUnified(t, c, map[]);
    for j := 0 to |m.body|
      invariant ItemsUnified(t, c, map[], j, binding)
      invariant forall l | i <= l < i + j :: LfOf(stmts[l]).Obj?
    {
      var lf := LfOf(stmts[i + j]);
      if !lf.Obj? {
        NotAnObject(stmts, i, m, j);
        return None;
      }
      var ok, after := Unify(m.body[j], lf, binding);
      if !ok {
        TemplateFails(stmts, i, m, j, binding, after);
        return None;
      }
      assert c.items[j] == lf;
      ItemsStep(t, c, map[], j, binding, after);
      binding := after;
    }
    TemplatesFit(stmts, i, m, binding);
    if p :| p in m.params && p !in binding {
      return None;
    }
    MatchUnique(stmts, i, m, binding);
    r := Some(binding);
  }

  /** `_macro_sig`: the key set of the first template, when it is an object. */
  function MacroSig(m: Macro): Option<set<string>> {
    if m.body != [] && m.body[0].Obj? then Some(m.body[0].fields.Keys) else None
  }

  /** The fast reject never drops a match. */
  lemma SigRejects(stmts: seq<Item>, i: nat, m: Macro)
    requires i < |stmts| && MacroSig(m).Some?
    requires LfOf(stmts[i]).Obj? ==> LfOf(stmts[i]).fields.Keys != MacroSig(m).value
    ensures !Matches(stmts, i, m)
  {
    forall b ensures !IsMatch(stmts, i, m, b) {
      if IsMatch(stmts, i, m, b) {
        assert Fits(m.body[0], Window(stmts, i, |m.body|)[0], b);
      }
    }
  }

  // ---------------------------------------------------------------- one pass, specified

  /** The position in `macros` of the first one that matches at `i`; |macros| when none does. */
  ghost function FirstHit(stmts: seq<Item>, i: nat, macros: seq<Macro>): (h: nat)
    ensures h <= |macros|
    ensures h < |macros| ==> Matches(stmts, i, macros[h])
    ensures forall k | 0 <= k < h :: !Matches(stmts, i, macros[k])
  {
    FirstIndex(macros, m => Matches(stmts, i, m))
  }

  /** Where an item of the output comes from. */
  datatype Origin =
    | Copied(pos: nat)                                      // the statement at `pos`
    | Made(pos: nat, macro: Macro, args: Binding)           // the window of `macro` at `pos`

  function Width(o: Origin): nat {
    if o.Copied? then 1 else |o.macro.body|
  }

  function ItemOf(stmts: seq<Item>, o: Origin): Item {
    match o
    case Copied(pos) => if pos < |stmts| then stmts[pos] else Raw(Null)
    case Made(_, macro, args) => Invocation(macro.name, args, |macro.params|)
  }

  ghost predicate Bodied(macros: seq<Macro>) {
    forall k | 0 <= k < |macros| :: macros[k].body != []
  }

  /** An origin says what the scan does at its position. */
  ghost predicate OriginRight(stmts: seq<Item>, macros: seq<Macro>, o: Origin) {
    && o.pos < |stmts|
    && match o
       case Copied(pos) => forall k | 0 <= k < |macros| :: !Matches(stmts, pos, macros[k])
       case Made(pos, m, args) => m in macros && m.body != [] && IsMatch(stmts, pos, m, args)
  }

  /** What the scan does at position `i`: the first macro that matches there, else a copy. */
  ghost function OriginAt(stmts: seq<Item>, macros: seq<Macro>, i: nat): (o: Origin)
    requires Bodied(macros) && i < |stmts|
    ensures o.pos == i && OriginRight(stmts, macros, o) && Width(o) > 0
  {
    var h := FirstHit(stmts, i, macros);
    if h < |macros| then Made(i, macros[h], MatchOf(stmts, i, macros[h])) else Copied(i)
  }

  /** The greedy left-to-right scan from position `i`. */
  ghost function Trace(stmts: seq<Item>, macros: seq<Macro>, i: nat): seq<Origin>
    requires Bodied(macros)
    decreases |stmts| - i
  {
    if i >= |stmts| then []
    else
      var o := OriginAt(stmts, macros, i);
      [o] + Trace(stmts, macros, i + Width(o))
  }

  ghost function Emitted(stmts: seq<Item>, trace: seq<Origin>): seq<Item> {
    seq(|trace|, j requires 0 <= j < |trace| => ItemOf(stmts, trace[j]))
  }

  /** The output of one rewrite pass. */
  ghost function Pass(stmts: seq<Item>, macros: seq<Macro>): seq<Item>
    requires Bodied(macros)
  {
    Emitted(stmts, Trace(stmts, macros, 0))
  }

  ghost predicate AllCopied(trace: seq<Origin>) {
    forall j | 0 <= j < |trace| :: trace[j].Copied?
  }

  ghost function MadeNames(trace: seq<Origin>): set<string> {
    set o | o in trace && o.Made? :: o.macro.name
  }

  // ---------------------------------------------------------------- one pass, computed

  /** The inner loop over the macros, with the fast reject. */
  method FindHit(stmts: seq<Item>, i: nat, macros: seq<Macro>, sigs: seq<Option<set<string>>>)
      returns (h: nat, binding: Binding)
    requires i < |stmts| && |sigs| == |macros|
    requires forall k | 0 <= k < |macros| :: sigs[k] == MacroSig(macros[k])
    ensures h == FirstHit(stmts, i, macros)
    ensures h < |macros| ==> binding == MatchOf(stmts, i, macros[h])
  {
    var lf0 := LfOf(stmts[i]);
    binding := map[];
    h := 0;
    while h < |macros|
      invariant h <= |macros| && forall k | 0 <= k < h :: !Matches(stmts, i, macros[k])
    {
      if sigs[h].Some? && (!lf0.Obj? || sigs[h].value != lf0.fields.Keys) {
        SigRejects(stmts, i, macros[h]);
      } else {
        var r := MatchAt(stmts, i, macros[h]);
        if r.Some? {
          return h, r.value;
        }
      }
      h := h + 1;
    }
  }

  /** `_rewrite_pass`. */
  method RewritePass(stmts: seq<Item>, macros: seq<Macro>, used: set<string>, sigs: seq<Option<set<string>>>)
      returns (out: seq<Item>, changed: bool, used': set<string>)
    requires Bodied(macros) && |sigs| == |macros|
    requires forall k | 0 <= k < |macros| :: sigs[k] == MacroSig(macros[k])
    ensures out == Pass(stmts, macros)
    ensures changed <==> !AllCopied(Trace(stmts, macros, 0))
    ensures used' == used + MadeNames(Trace(stmts, macros, 0))
  {
    hide FirstHit, MatchOf, Matches, IsMatch, Bodied, MadeNames, AllCopied, OriginRight, Emitted;
    ghost var done: seq<Origin> := [];
    var i: nat := 0;
    out, changed, used' := [], false, used;
    NothingDone(stmts);
    while i < |stmts|
      invariant done + Trace(stmts, macros, i) == Trace(stmts, macros, 0)
      invariant out == Emitted(stmts, done) && changed == !AllCopied(done)
      invariant used' == used + MadeNames(done)
      decreases |stmts| - i
    {
      var h, binding := FindHit(stmts, i, macros, sigs);
      ghost var o := OriginAt(stmts, macros, i);
      OriginAppended(stmts, done, o);
      assert done + ([o] + Trace(stmts, macros, i + Width(o))) == (done + [o]) + Trace(stmts, macros, i + Width(o));
      if h < |macros| {
        out := out + [Invocation(macros[h].name, binding, |macros[h].params|)];
        used' := used' + {macros[h].name};
        i, changed := i + |macros[h].body|, true;
      } else {
        out := out + [stmts[i]];
        i := i + 1;
      }
      done := done + [o];
    }
    assert done + [] == done;
  }

  lemma NothingDone(stmts: seq<Item>)
    ensures Emitted(stmts, []) == [] && AllCopied([]) && MadeNames([]) == {}
  {
  }

  lemma OriginAppended(stmts: seq<Item>, done: seq<Origin>, o: Origin)
    ensures Emitted(stmts, done + [o]) == Emitted(stmts, done) + [ItemOf(stmts, o)]
    ensures AllCopied(done + [o]) <==> AllCopied(done) && o.Copied?
    ensures MadeNames(done + [o]) == MadeNames(done) + if o.Made? then {o.macro.name} else {}
  {
    hide ItemOf;
    if AllCopied(done + [o]) {
      assert forall j | 0 <= j < |done| :: done[j] == (done + [o])[j];
      assert (done + [o])[|done|] == o;
    }
  }

  // ---------------------------------------------------------------- the shape of a trace

  /** The origins tile the stream: each is right behind the one before, a copied position has no
      match, and a made one is the match found there. */
  lemma {:induction false} TraceTiles(stmts: seq<Item>, macros: seq<Macro>, i: nat)
    requires Bodied(macros) && i <= |stmts|
    ensures var t := Trace(stmts, macros, i);
      && (t != [] ==> t[0].pos == i)
      && (forall j | 0 <= j < |t| :: OriginRight(stmts, macros, t[j]))
      && (forall j | 0 < j < |t| :: t[j].pos == t[j - 1].pos + Width(t[j - 1]))
    decreases |stmts| - i
  {
    hide FirstHit, OriginRight, IsMatch, Matches;
    if i < |stmts| {
      var o := OriginAt(stmts, macros, i);
      var rest := Trace(stmts, macros, i + Width(o));
      var t := [o] + rest;
      if o.Made? {
        MadeInside(stmts, macros, o);
      }
      TraceTiles(stmts, macros, i + Width(o));
      forall j | 0 <= j < |t| ensures OriginRight(stmts, macros, t[j]) {
        assert j > 0 ==> t[j] == rest[j - 1];
      }
      forall j | 0 < j < |t| ensures t[j].pos == t[j - 1].pos + Width(t[j - 1]) {
        assert t[j] == rest[j - 1];
        assert j > 1 ==> t[j - 1] == rest[j - 2];
      }
    }
  }

  lemma MadeInside(stmts: seq<Item>, macros: seq<Macro>, o: Origin)
    requires OriginRight(stmts, macros, o) && o.Made?
    ensures o.pos + Width(o) <= |stmts|
  {
  }

  /** A pass that makes nothing leaves the stream as it is. */
  lemma {:induction false} UnchangedPass(stmts: seq<Item>, macros: seq<Macro>)
    requires Bodied(macros) && AllCopied(Trace(stmts, macros, 0))
    ensures Pass(stmts, macros) == stmts
    ensures forall i, m | 0 <= i < |stmts| && m in macros :: !Matches(stmts, i, m)
  {
    CopyAll(stmts, macros, 0);
    TraceTiles(stmts, macros, 0);
    hide Trace;
    var t := Trace(stmts, macros, 0);
    forall i, m | 0 <= i < |stmts| && m in macros ensures !Matches(stmts, i, m) {
      assert OriginRight(stmts, macros, t[i]);
    }
  }

  lemma {:induction false} CopyAll(stmts: seq<Item>, macros: seq<Macro>, i: nat)
    requires Bodied(macros) && i <= |stmts| && AllCopied(Trace(stmts, macros, i))
    ensures Trace(stmts, macros, i) == seq(|stmts| - i, j requires j >= 0 => Copied(i + j))
    decreases |stmts| - i
  {
    hide FirstHit, Matches, OriginRight, Bodied;
    if i < |stmts| {
      var t := Trace(stmts, macros, i);
      assert t[0].Copied?;
      assert t[1..] == Trace(stmts, macros, i + 1);
      CopyAll(stmts, macros, i + 1);
    }
  }

  // ---------------------------------------------------------------- passes

  ghost function PassN(stmts: seq<Item>, macros: seq<Macro>, k: nat): seq<Item>
    requires Bodied(macros)
  {
    if k == 0 then stmts else Pass(PassN(stmts, macros, k - 1), macros)
  }

  /** Nothing in the stream matches any macro any more. */
  ghost predicate Settled(stmts: seq<Item>, macros: seq<Macro>) {
    forall i, m | 0 <= i < |stmts| && m in macros :: !Matches(stmts, i, m)
  }

  /** A template of a macro invocation by name. */
  predicate Invokes(t: Json, name: string) {
    && t.Obj? && t.fields.Keys == {"kind", "name", "args"}
    && t.fields["kind"] == Str("macro") && t.fields["name"] == Str(name)
  }

  /** Templates are objects with a literal kind; macro templates have a literal name. */
  predicate LiteralHead(t: Json) {
    && t.Obj?
    && ("kind" in t.fields ==> !IsParam(t.fields["kind"]))
    && ("kind" in t.fields && t.fields["kind"] == Str("macro") && "name" in t.fields ==> !IsParam(t.fields["name"]))
  }

  ghost predicate WellFormed(macros: seq<Macro>) {
    forall m | m in macros :: m.body != [] && forall t | t in m.body :: LiteralHead(t)
  }

  /** Bodies only invoke macros of lower rank: the closure rule of admitted tables. */
  ghost predicate Ranked(macros: seq<Macro>, rank: string -> nat) {
    forall m, m', t | m in macros && m' in macros && t in m.body && Invokes(t, m'.name) :: rank(m'.name) < rank(m.name)
  }

  /** `m` sits on a tower of |chain| macros of the table. */
  ghost predicate Tower(chain: seq<Macro>, macros: seq<Macro>, rank: string -> nat, m: Macro) {
    && chain != [] && chain[|chain| - 1] == m
    && (forall x | 0 <= x < |chain| :: chain[x] in macros)
    && (forall x, y | 0 <= x < y < |chain| :: rank(chain[x].name) < rank(chain[y].name))
  }

  /** What matches an invocation item names its macro. */
  lemma FitsInvocation(t: Json, name: string, args: Binding, b: Binding)
    requires LiteralHead(t) && Fits(t, InvocationLf(name, args), b)
    ensures Invokes(t, name)
  {
    var c := InvocationLf(name, args);
    assert c.fields.Keys == {"kind", "name", "args"};
    assert Fits(t.fields["kind"], c.fields["kind"], b);
    assert Fits(t.fields["name"], c.fields["name"], b);
  }

  /** A matched invocation item is named by the template it matches. */
  lemma MadeIsInvoked(out: seq<Item>, i: nat, m: Macro, x: nat)
    requires Matches(out, i, m) && i <= x < i + |m.body| && x < |out| && out[x].Invocation?
    requires forall t | t in m.body :: LiteralHead(t)
    ensures Invokes(m.body[x - i], out[x].name)
  {
    var b := MatchOf(out, i, m);
    assert out[i..i + |m.body|][x - i] == out[x];
    assert Fits(m.body[x - i], Window(out, i, |m.body|)[x - i], b);
    FitsInvocation(m.body[x - i], out[x].name, out[x].args, b);
  }

  /** A match in the output of a pass uses an item the pass made: had it only copied ones, it would
      have been there before, and the pass would have taken it. */
  lemma MatchUsesMade(stmts: seq<Item>, macros: seq<Macro>, i: nat, m: Macro) returns (x: nat)
    requires Bodied(macros) && m in macros && Matches(Pass(stmts, macros), i, m)
    ensures i <= x < i + |m.body| <= |Trace(stmts, macros, 0)| && Trace(stmts, macros, 0)[x].Made?
  {
    var t := Trace(stmts, macros, 0);
    if y :| i <= y < i + |m.body| && t[y].Made? {
      x := y;
    } else {
      CopiedMatch(stmts, macros, i, m);
      assert false;
    }
  }

  /** Copied items in a row were next to each other before, and nothing matched where they began. */
  lemma CopiedWindow(stmts: seq<Item>, macros: seq<Macro>, i: nat, m: Macro) returns (p: nat)
    requires Bodied(macros) && m in macros && i + |m.body| <= |Trace(stmts, macros, 0)|
    requires forall y | i <= y < i + |m.body| :: Trace(stmts, macros, 0)[y].Copied?
    ensures p + |m.body| <= |stmts| && |Pass(stmts, macros)| == |Trace(stmts, macros, 0)|
    ensures stmts[p..p + |m.body|] == Pass(stmts, macros)[i..i + |m.body|]
    ensures !Matches(stmts, p, m)
  {
    var t, out, n := Trace(stmts, macros, 0), Pass(stmts, macros), |m.body|;
    TraceTiles(stmts, macros, 0);
    CopiedRun(stmts, macros, i, n);
    p := t[i].pos;
    assert OriginRight(stmts, macros, t[i]);
    hide Trace, FirstHit, Matches, OriginRight;
    forall y | i <= y < i + n ensures out[y] == stmts[p + (y - i)] {
      assert t[y].pos == p + (y - i);
    }
  }

  lemma CopiedMatch(stmts: seq<Item>, macros: seq<Macro>, i: nat, m: Macro)
    requires Bodied(macros) && m in macros && i + |m.body| <= |Trace(stmts, macros, 0)|
    requires forall y | i <= y < i + |m.body| :: Trace(stmts, macros, 0)[y].Copied?
    ensures !Matches(Pass(stmts, macros), i, m)
  {
    hide Trace, Pass, Bodied, IsMatch;
    var p := CopiedWindow(stmts, macros, i, m);
    var out := Pass(stmts, macros);
    if Matches(out, i, m) {
      MatchMoves(out, i, stmts, p, m, MatchOf(out, i, m));
    }
  }

  /** A match depends on its window alone. */
  lemma MatchMoves(out: seq<Item>, i: nat, stmts: seq<Item>, p: nat, m: Macro, binding: Binding)
    requires i + |m.body| <= |out| && p + |m.body| <= |stmts|
    requires out[i..i + |m.body|] == stmts[p..p + |m.body|] && IsMatch(out, i, m, binding)
    ensures Matches(stmts, p, m)
  {
    hide Fits;
    forall j | p <= j < p + |m.body| ensures LfOf(stmts[j]).Obj? {
      assert stmts[j] == stmts[p..p + |m.body|][j - p] == out[i + (j - p)];
    }
    assert IsMatch(stmts, p, m, binding);
  }

  lemma {:induction false} CopiedRun(stmts: seq<Item>, macros: seq<Macro>, i: nat, n: nat)
    requires Bodied(macros) && 0 < n && i + n <= |Trace(stmts, macros, 0)|
    requires forall y | i <= y < i + n :: Trace(stmts, macros, 0)[y].Copied?
    ensures var t := Trace(stmts, macros, 0);
      t[i].pos + n <= |stmts| && forall y | i <= y < i + n :: t[y].pos == t[i].pos + (y - i)
  {
    TraceTiles(stmts, macros, 0);
    var t := Trace(stmts, macros, 0);
    if n > 1 {
      CopiedRun(stmts, macros, i, n - 1);
      assert t[i + n - 1].pos == t[i + n - 2].pos + 1;
    }
    assert OriginRight(stmts, macros, t[i + n - 1]);
  }

  /** Behind a match in the output of a pass is a match of a lower macro in its input. */
  lemma MatchBehind(stmts: seq<Item>, macros: seq<Macro>, i: nat, m: Macro) returns (pos: nat, m': Macro, t: Json)
    requires WellFormed(macros) && Bodied(macros) && m in macros && Matches(Pass(stmts, macros), i, m)
    ensures m' in macros && Matches(stmts, pos, m') && t in m.body && Invokes(t, m'.name)
  {
    var trace := Trace(stmts, macros, 0);
    var x := MatchUsesMade(stmts, macros, i, m);
    TraceTiles(stmts, macros, 0);
    assert OriginRight(stmts, macros, trace[x]);
    pos, m', t := trace[x].pos, trace[x].macro, m.body[x - i];
    assert IsMatch(stmts, pos, m', trace[x].args);
    hide Trace, IsMatch;
    MadeIsInvoked(Pass(stmts, macros), i, m, x);
  }

  /** A match left after `k` passes sits on a tower of k + 1 macros. */
  lemma {:induction false} MatchNeedsTower(stmts: seq<Item>, macros: seq<Macro>, rank: string -> nat, k: nat, i: nat, m: Macro)
      returns (chain: seq<Macro>)
    requires WellFormed(macros) && Bodied(macros) && Ranked(macros, rank)
    requires m in macros && Matches(PassN(stmts, macros, k), i, m)
    ensures Tower(chain, macros, rank, m) && |chain| == k + 1
  {
    hide Matches, Pass;
    if k == 0 {
      chain := [m];
    } else {
      hide WellFormed, Bodied, Ranked, Tower;
      var pos, m', t := MatchBehind(PassN(stmts, macros, k - 1), macros, i, m);
      chain := MatchNeedsTower(stmts, macros, rank, k - 1, pos, m');
      TowerGrows(chain, macros, rank, m', m, t);
      chain := chain + [m];
    }
  }

  lemma TowerGrows(chain: seq<Macro>, macros: seq<Macro>, rank: string -> nat, m': Macro, m: Macro, t: Json)
    requires Ranked(macros, rank) && Tower(chain, macros, rank, m')
    requires m in macros && t in m.body && Invokes(t, m'.name)
    ensures Tower(chain + [m], macros, rank, m)
  {
    hide Invokes;
    assert m' in macros;
    var top := |chain| - 1;
    forall x, y | 0 <= x < y < |chain + [m]| ensures rank((chain + [m])[x].name) < rank((chain + [m])[y].name) {
      if y == |chain| && x < top {
        assert rank(chain[x].name) < rank(chain[top].name);
      }
    }
  }

  lemma TowerFits(chain: seq<Macro>, macros: seq<Macro>, rank: string -> nat, m: Macro)
    requires Tower(chain, macros, rank, m)
    ensures |chain| <= |macros|
  {
    var all := set m | m in macros;
    DistinctFit(chain, all);
    MembersFit(macros);
  }

  lemma {:induction false} MembersFit<T>(xs: seq<T>)
    ensures |set x | x in xs| <= |xs|
  {
    if xs != [] {
      var k := |xs| - 1;
      MembersFit(xs[..k]);
      assert xs == xs[..k] + [xs[k]];
      assert (set x | x in xs) == (set x | x in xs[..k]) + {xs[k]};
    }
  }

  /** PASS BOUND. For a table whose invocations are acyclic, as many passes as it has macros reach a
      stream that no macro matches. */
  lemma PassBound(stmts: seq<Item>, macros: seq<Macro>, rank: string -> nat)
    requires WellFormed(macros) && Bodied(macros) && Ranked(macros, rank)
    ensures Settled(PassN(stmts, macros, |macros|), macros)
  {
    var out := PassN(stmts, macros, |macros|);
    forall i, m | 0 <= i < |out| && m in macros ensures !Matches(out, i, m) {
      if Matches(out, i, m) {
        var chain := MatchNeedsTower(stmts, macros, rank, |macros|, i, m);
        TowerFits(chain, macros, rank, m);
      }
    }
  }

  /** FLAT TABLES. When no body invokes a macro, the second pass changes nothing, whatever order the
      macros are in. */
  lemma FlatTable(stmts: seq<Item>, macros: seq<Macro>)
    requires WellFormed(macros) && Bodied(macros)
    requires forall m, m', t | m in macros && m' in macros && t in m.body :: !Invokes(t, m'.name)
    ensures Settled(Pass(stmts, macros), macros)
  {
    var out := Pass(stmts, macros);
    forall i, m | 0 <= i < |out| && m in macros ensures !Matches(out, i, m) {
      if Matches(out, i, m) {
        var pos, m', t := MatchBehind(stmts, macros, i, m);
      }
    }
  }

  /** A settled stream is a fixpoint: a further pass copies it. */
  lemma SettledPass(stmts: seq<Item>, macros: seq<Macro>)
    requires Bodied(macros) && Settled(stmts, macros)
    ensures Pass(stmts, macros) == stmts
  {
    TraceTiles(stmts, macros, 0);
    var t := Trace(stmts, macros, 0);
    forall j | 0 <= j < |t| ensures t[j].Copied? {
      assert OriginRight(stmts, macros, t[j]);
      assert t[j].Made? ==> Matches(stmts, t[j].pos, t[j].macro);
    }
    UnchangedPass(stmts, macros);
  }
}
