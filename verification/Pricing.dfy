/** Description lengths of `buildloop/mdl_macros.py`: statements, invocations, macros, readings and
    corpora, with the pricing memo. Every cost is a whole number there (floats of integers). */
module Pricing {
  import opened Order
  import opened Templates
  import opened Rewriting
  import opened Expansion

  datatype Reading = Reading(statements: seq<Json>, origin: string)

  /** dict of the live macros by name; names are the keys and bodies are not empty. */
  ghost predicate ValidTable(table: Table) {
    forall n | n in table :: table[n].name == n && table[n].body != []
  }

  // ---------------------------------------------------------------- leaves

  /** `_leaf_count`: one per dict key and list element, one per scalar leaf. */
  ghost function Leaves(x: Json): nat
    decreases x, 1, 0
  {
    match x
    case Obj(fields) => FieldLeaves(x, fields.Keys)
    case Arr(items) => ItemLeaves(x, |items|)
    case _ => 1
  }

  ghost function FieldLeaves(x: Json, keys: set<string>): nat
    requires x.Obj? && keys <= x.fields.Keys
    decreases x, 0, |keys|
  {
    if keys == {} then 0
    else
      var k :| k in keys;
      1 + Leaves(x.fields[k]) + FieldLeaves(x, keys - {k})
  }

  ghost function ItemLeaves(x: Json, n: nat): nat
    requires x.Arr? && n <= |x.items|
    decreases x, 0, n
  {
    if n == 0 then 0 else ItemLeaves(x, n - 1) + 1 + Leaves(x.items[n - 1])
  }

  /** The order in which a dict yields its keys does not matter. */
  lemma {:induction false} AnyFieldFirst(x: Json, keys: set<string>, k: string)
    requires x.Obj? && keys <= x.fields.Keys && k in keys
    ensures FieldLeaves(x, keys) == 1 + Leaves(x.fields[k]) + FieldLeaves(x, keys - {k})
    decreases |keys|
  {
    var l :| l in keys && FieldLeaves(x, keys) == 1 + Leaves(x.fields[l]) + FieldLeaves(x, keys - {l});
    if l != k {
      AnyFieldFirst(x, keys - {l}, k);
      AnyFieldFirst(x, keys - {k}, l);
      assert keys - {l} - {k} == keys - {k} - {l};
    }
  }

  method LeafCount(x: Json) returns (n: nat)
    ensures n == Leaves(x)
    decreases x
  {
    match x
    case Obj(fields) =>
      n := 0;
      var rest := fields.Keys;
      while rest != {}
        invariant rest <= fields.Keys && n + FieldLeaves(x, rest) == Leaves(x)
      {
        var k :| k in rest;
        AnyFieldFirst(x, rest, k);
        var l := LeafCount(fields[k]);
        n, rest := n + 1 + l, rest - {k};
      }
    case Arr(items) =>
      n := 0;
      for i := 0 to |items|
        invariant n == ItemLeaves(x, i)
      {
        var l := LeafCount(items[i]);
        n := n + 1 + l;
      }
    case Null => n := 1;
    case Bool(_) => n := 1;
    case Num(_) => n := 1;
    case Str(_) => n := 1;
  }

  // ---------------------------------------------------------------- streams

  /** `dl_statement` for a statement, `dl_invocation` for a collapsed window. */
  ghost function ItemDl(item: Item): nat {
    if item.Invocation? then 2 + item.nParams else 1 + Leaves(LfOf(item))
  }

  ghost function StreamDl(stmts: seq<Item>): nat {
    if stmts == [] then 0 else StreamDl(stmts[..|stmts| - 1]) + ItemDl(stmts[|stmts| - 1])
  }

  ghost function BodyDl(body: seq<Json>): nat {
    if body == [] then 0 else BodyDl(body[..|body| - 1]) + 1 + Leaves(body[|body| - 1])
  }

  /** `dl_macro` */
  ghost function MacroDl(m: Macro): nat {
    1 + |m.params| + BodyDl(m.body)
  }

  method StreamCost(stmts: seq<Item>) returns (dl: nat)
    ensures dl == StreamDl(stmts)
  {
    dl := 0;
    for i := 0 to |stmts|
      invariant dl == StreamDl(stmts[..i])
    {
      assert stmts[..i + 1][..i] == stmts[..i];
      match stmts[i] {
        case Invocation(_, _, nParams) => dl := dl + 2 + nParams;
        case Raw(_) =>
          var l := LeafCount(LfOf(stmts[i]));
          dl := dl + 1 + l;
      }
    }
    assert stmts[..|stmts|] == stmts;
  }

  method MacroCost(m: Macro) returns (dl: nat)
    ensures dl == MacroDl(m)
  {
    dl := 1 + |m.params|;
    for i := 0 to |m.body|
      invariant dl == 1 + |m.params| + BodyDl(m.body[..i])
    {
      assert m.body[..i + 1][..i] == m.body[..i];
      var l := LeafCount(m.body[i]);
      dl := dl + 1 + l;
    }
    assert m.body[..|m.body|] == m.body;
  }

  // ---------------------------------------------------------------- readings

  /** Macros are tried longest body first, equal lengths by name. */
  predicate LongerFirst(a: Macro, b: Macro) {
    |a.body| > |b.body| || (|a.body| == |b.body| && Le(a.name, b.name))
  }

  lemma LongerFirstIsPreorder()
    ensures TotalPreorder(LongerFirst)
  {
    LeIsPreorder();
    forall a, b, c | LongerFirst(a, b) && LongerFirst(b, c) ensures LongerFirst(a, c) {
      if |a.body| == |c.body| {
        LeTransitive(a.name, b.name, c.name);
      }
    }
    forall a: Macro, b ensures LongerFirst(a, b) || LongerFirst(b, a) {
      LeTotal(a.name, b.name);
    }
  }

  /** The table's macros, longest body first, then by name. */
  ghost predicate InOrder(table: Table, macros: seq<Macro>) {
    multiset(macros) == multiset(table.Values) && Sorted(macros, LongerFirst)
  }

  lemma InOrderUnique(table: Table, a: seq<Macro>, b: seq<Macro>)
    requires ValidTable(table) && InOrder(table, a) && InOrder(table, b)
    ensures a == b
  {
    forall i, j | 0 <= i < |a| && 0 <= j < |a| && LongerFirst(a[i], a[j]) && LongerFirst(a[j], a[i])
      ensures a[i] == a[j]
    {
      LeAntisymmetric(a[i].name, a[j].name);
      assert a[i] in multiset(table.Values) && a[j] in multiset(table.Values);
    }
    SortedUnique(a, b, LongerFirst);
  }

  ghost function MacroOrder(table: Table): (macros: seq<Macro>)
    requires ValidTable(table)
    ensures InOrder(table, macros) && Bodied(macros) && |macros| == |table.Values|
    ensures forall m :: m in macros <==> m in table.Values
  {
    ExistsOrder(table);
    var macros :| InOrder(table, macros);
    SameMembers(macros, table.Values);
    assert forall k | 0 <= k < |macros| :: macros[k] in macros;
    assert |macros| == |multiset(macros)|;
    macros
  }

  lemma ExistsOrder(table: Table)
    ensures exists macros :: InOrder(table, macros)
  {
    LongerFirstIsPreorder();
    var listed := AnyListing(table.Values);
    assert InOrder(table, Sort(listed, LongerFirst));
  }

  method SortedMacros(table: Table) returns (macros: seq<Macro>)
    requires ValidTable(table)
    ensures macros == MacroOrder(table)
  {
    var listed := Listed(table.Values);
    LongerFirstIsPreorder();
    macros := Sort(listed, LongerFirst);
    InOrderUnique(table, macros, MacroOrder(table));
  }

  function Raws(r: Reading): seq<Item> {
    seq(|r.statements|, i requires 0 <= i < |r.statements| => Raw(r.statements[i]))
  }

  /** The number of passes `_reading_stats` makes at most. */
  function PassLimit(macros: seq<Macro>): nat {
    if |macros| > 1 then |macros| else 1
  }

  /** The names of the macros that collapsed a window in the first `k` passes. */
  ghost function UsedNames(stmts: seq<Item>, macros: seq<Macro>, k: nat): set<string>
    requires Bodied(macros)
  {
    if k == 0 then {}
    else UsedNames(stmts, macros, k - 1) + MadeNames(Trace(PassN(stmts, macros, k - 1), macros, 0))
  }

  datatype Stats = Stats(dl: nat, count: nat, used: set<string>)

  /** What a reading costs with a table: the stream after all its passes. */
  ghost function StatsOf(r: Reading, table: Table): Stats
    requires ValidTable(table)
  {
    var macros := MacroOrder(table);
    var stream := PassN(Raws(r), macros, PassLimit(macros));
    Stats(StreamDl(stream), |stream|, UsedNames(Raws(r), macros, PassLimit(macros)))
  }

  ghost function ReadingDl(r: Reading, table: Table): nat
    requires ValidTable(table)
  {
    StatsOf(r, table).dl
  }

  lemma {:induction false} PassesAfterSettling(stmts: seq<Item>, macros: seq<Macro>, k: nat, n: nat)
    requires Bodied(macros) && k <= n && Settled(PassN(stmts, macros, k), macros)
    ensures PassN(stmts, macros, n) == PassN(stmts, macros, k)
    ensures UsedNames(stmts, macros, n) == UsedNames(stmts, macros, k)
    decreases n
  {
    hide Settled, Trace, Pass, MadeNames, Bodied;
    if k < n {
      PassesAfterSettling(stmts, macros, k, n - 1);
      SettledPass(PassN(stmts, macros, n - 1), macros);
      SettledCopies(PassN(stmts, macros, n - 1), macros);
    }
  }

  lemma SettledCopies(stmts: seq<Item>, macros: seq<Macro>)
    requires Bodied(macros) && Settled(stmts, macros)
    ensures MadeNames(Trace(stmts, macros, 0)) == {}
  {
    TraceTiles(stmts, macros, 0);
    var t := Trace(stmts, macros, 0);
    forall o | o in t ensures o.Copied? {
      assert OriginRight(stmts, macros, o);
      assert o.Made? ==> Matches(stmts, o.pos, o.macro);
    }
  }

  /** The rewriting loop of `_reading_stats`: passes until one changes nothing, or the limit. */
  method Recode(r: Reading, table: Table) returns (stats: Stats)
    requires ValidTable(table)
    ensures stats == StatsOf(r, table)
  {
    hide Trace, Settled, MadeNames, Bodied;
    var macros := SortedMacros(table);
    var sigs := seq(|macros|, k requires 0 <= k < |macros| => MacroSig(macros[k]));
    var stmts := Raws(r);
    var used: set<string> := {};
    var changed, n := true, 0;
    ghost var limit := PassLimit(macros);
    while n < PassLimit(macros) && changed
      invariant n <= limit
      invariant stmts == PassN(Raws(r), macros, n) && used == UsedNames(Raws(r), macros, n)
      invariant !changed ==> Settled(stmts, macros)
    {
      ghost var before := stmts;
      stmts, changed, used := RewritePass(stmts, macros, used, sigs);
      if !changed {
        UnchangedPass(before, macros);
        assert Settled(stmts, macros) by { SettledMeans(stmts, macros); }
      }
      n := n + 1;
    }
    if !changed {
      PassesAfterSettling(Raws(r), macros, n, limit);
    }
    var dl := StreamCost(stmts);
    stats := Stats(dl, |stmts|, used);
  }

  lemma SettledMeans(stmts: seq<Item>, macros: seq<Macro>)
    requires forall i, m | 0 <= i < |stmts| && m in macros :: !Matches(stmts, i, m)
    ensures Settled(stmts, macros)
  {
  }

  /** PASS LIMIT. For a table whose invocations are acyclic the limit is enough: the priced stream
      is one that no macro of the table matches. */
  lemma PricedStreamSettled(r: Reading, table: Table, rank: string -> nat)
    requires ValidTable(table) && WellFormed(MacroOrder(table)) && Ranked(MacroOrder(table), rank)
    ensures Settled(PassN(Raws(r), MacroOrder(table), PassLimit(MacroOrder(table))), MacroOrder(table))
  {
    var macros := MacroOrder(table);
    if macros != [] {
      PassBound(Raws(r), macros, rank);
    }
  }

  // ---------------------------------------------------------------- which macro wins

  /** A window is collapsed by the macro with the longest body of those that match there; between macros
      of one length by the first in name order. */
  ghost predicate Wins(stmts: seq<Item>, table: Table, pos: nat, m: Macro) {
    && m in table.Values
    && forall other | other in table.Values && Matches(stmts, pos, other) ::
      |other.body| < |m.body| || (|other.body| == |m.body| && Le(m.name, other.name))
  }

  /** One left-to-right pass, said without an order of the macros: the origins tile the stream, a position
      is copied exactly if no macro of the table matches there, and otherwise the winner collapses its
      window. */
  ghost predicate GreedyTrace(stmts: seq<Item>, table: Table, t: seq<Origin>) {
    && (t == [] <==> stmts == [])
    && (t != [] ==> t[0].pos == 0 && t[|t| - 1].pos + Width(t[|t| - 1]) == |stmts|)
    && (forall j | 0 < j < |t| :: t[j].pos == t[j - 1].pos + Width(t[j - 1]))
    && (forall j | 0 <= j < |t| :: GreedyOrigin(stmts, table, t[j]))
  }

  ghost predicate GreedyOrigin(stmts: seq<Item>, table: Table, o: Origin) {
    && o.pos < |stmts|
    && match o
       case Copied(pos) => forall m | m in table.Values :: !Matches(stmts, pos, m)
       case Made(pos, m, args) => IsMatch(stmts, pos, m, args) && Wins(stmts, table, pos, m)
  }

  lemma OriginIsGreedy(stmts: seq<Item>, table: Table, i: nat)
    requires ValidTable(table) && i < |stmts|
    ensures GreedyOrigin(stmts, table, OriginAt(stmts, MacroOrder(table), i))
  {
    hide Matches, IsMatch, ValidTable, LongerFirst, Wins;
    var macros := MacroOrder(table);
    var h := FirstHit(stmts, i, macros);
    forall m | m in table.Values && Matches(stmts, i, m) ensures h < |macros| && (macros[h] == m || LongerFirst(macros[h], m))
    {
      var k :| 0 <= k < |macros| && macros[k] == m;
    }
    if h < |macros| {
      assert macros[h] in macros;
      HeadWins(stmts, table, i, macros[h]);
    }
  }

  lemma HeadWins(stmts: seq<Item>, table: Table, pos: nat, m: Macro)
    requires m in table.Values
    requires forall other | other in table.Values && Matches(stmts, pos, other) :: m == other || LongerFirst(m, other)
    ensures Wins(stmts, table, pos, m)
  {
    hide Matches;
    LeTotal(m.name, m.name);
  }

  /** The winner is unique, and so are its arguments. */
  lemma GreedyOriginUnique(stmts: seq<Item>, table: Table, o: Origin, o': Origin)
    requires ValidTable(table) && GreedyOrigin(stmts, table, o) && GreedyOrigin(stmts, table, o') && o.pos == o'.pos
    ensures o == o'
  {
    if o.Made? {
      assert Matches(stmts, o.pos, o.macro);
    }
    if o'.Made? {
      assert Matches(stmts, o'.pos, o'.macro);
    }
    if o.Made? && o'.Made? {
      hide IsMatch, Matches;
      LeAntisymmetric(o.macro.name, o'.macro.name);
      assert o.macro == o'.macro;
      MatchUnique(stmts, o.pos, o.macro, o.args);
      MatchUnique(stmts, o.pos, o.macro, o'.args);
    }
  }

  lemma {:induction false} TraceIsGreedy(stmts: seq<Item>, table: Table, i: nat)
    requires ValidTable(table) && i <= |stmts|
    ensures var t := Trace(stmts, MacroOrder(table), i);
      && (forall j | 0 <= j < |t| :: GreedyOrigin(stmts, table, t[j]))
      && (t == [] <==> i == |stmts|)
      && (t != [] ==> t[|t| - 1].pos + Width(t[|t| - 1]) == |stmts|)
    decreases |stmts| - i
  {
    hide GreedyOrigin, Matches, IsMatch, ValidTable, FirstHit;
    if i < |stmts| {
      var macros := MacroOrder(table);
      var o := OriginAt(stmts, macros, i);
      OriginIsGreedy(stmts, table, i);
      if o.Made? {
        MadeInside(stmts, macros, o);
      }
      TraceIsGreedy(stmts, table, i + Width(o));
      var rest := Trace(stmts, macros, i + Width(o));
      forall j | 0 <= j < |[o] + rest| ensures GreedyOrigin(stmts, table, ([o] + rest)[j]) {
        assert j > 0 ==> ([o] + rest)[j] == rest[j - 1];
      }
    }
  }

  lemma TracePos(stmts: seq<Item>, macros: seq<Macro>, i: nat)
    requires Bodied(macros) && i < |stmts|
    ensures Trace(stmts, macros, i) != [] && Trace(stmts, macros, i)[0] == OriginAt(stmts, macros, i)
    ensures Trace(stmts, macros, i)[1..] == Trace(stmts, macros, i + Width(OriginAt(stmts, macros, i)))
  {
  }

  /** Two greedy passes over one stream agree from position to position. */
  lemma {:induction false} GreedyFrom(stmts: seq<Item>, table: Table, t: seq<Origin>, j: nat, i: nat)
    requires ValidTable(table) && GreedyTrace(stmts, table, t) && j <= |t|
    requires i == if j < |t| then t[j].pos else |stmts|
    ensures t[j..] == Trace(stmts, MacroOrder(table), i)
    decreases |t| - j
  {
    hide GreedyOrigin, Matches, IsMatch, ValidTable, Trace;
    if j == |t| {
      TraceIsGreedy(stmts, table, |stmts|);
    } else {
      InsideOf(stmts, table, t[j]);
      OriginIsGreedy(stmts, table, i);
      GreedyOriginUnique(stmts, table, t[j], OriginAt(stmts, MacroOrder(table), i));
      TracePos(stmts, MacroOrder(table), i);
      GreedyFrom(stmts, table, t, j + 1, i + Width(t[j]));
      assert t[j..] == [t[j]] + t[j + 1..];
      assert Trace(stmts, MacroOrder(table), i) == [Trace(stmts, MacroOrder(table), i)[0]] + Trace(stmts, MacroOrder(table), i)[1..];
    }
  }

  lemma InsideOf(stmts: seq<Item>, table: Table, o: Origin)
    requires GreedyOrigin(stmts, table, o)
    ensures o.pos < |stmts|
  {
  }

  /** WHICH MACRO COLLAPSES WHAT. The pass the pricing makes is the one greedy pass of the table, in which
      the longest macro wins. */
  lemma PassIsGreedy(stmts: seq<Item>, table: Table, t: seq<Origin>)
    requires ValidTable(table)
    ensures GreedyTrace(stmts, table, t) <==> t == Trace(stmts, MacroOrder(table), 0)
  {
    hide GreedyOrigin, Matches, IsMatch, ValidTable;
    TraceIsGreedy(stmts, table, 0);
    TraceTiles(stmts, MacroOrder(table), 0);
    if GreedyTrace(stmts, table, t) {
      GreedyFrom(stmts, table, t, 0, 0);
      assert t[0..] == t;
    }
  }

  /** A reading recoded: one stream more than passes, at least one pass, otherwise as many as macros; each
      stream is what the greedy pass over the one before emits. */
  ghost predicate GreedyRun(r: Reading, table: Table, streams: seq<seq<Item>>, traces: seq<seq<Origin>>) {
    && |streams| == |traces| + 1 && |traces| == (if |table.Values| == 0 then 1 else |table.Values|)
    && streams[0] == Raws(r)
    && forall k | 0 <= k < |traces| :: GreedyStep(table, streams[k], traces[k], streams[k + 1])
  }

  ghost predicate GreedyStep(table: Table, stmts: seq<Item>, t: seq<Origin>, out: seq<Item>) {
    GreedyTrace(stmts, table, t) && out == Emitted(stmts, t)
  }

  ghost function NamesMade(traces: seq<seq<Origin>>): set<string> {
    set k, o: Origin | 0 <= k < |traces| && o in traces[k] && o.Made? :: o.macro.name
  }

  lemma {:induction false} RunIs(r: Reading, table: Table, streams: seq<seq<Item>>, traces: seq<seq<Origin>>, k: nat)
    requires ValidTable(table) && GreedyRun(r, table, streams, traces) && k <= |traces|
    ensures streams[k] == PassN(Raws(r), MacroOrder(table), k)
    ensures NamesMade(traces[..k]) == UsedNames(Raws(r), MacroOrder(table), k)
  {
    hide GreedyTrace, Trace, ValidTable, Emitted;
    if k > 0 {
      RunIs(r, table, streams, traces, k - 1);
      assert GreedyStep(table, streams[k - 1], traces[k - 1], streams[k - 1 + 1]);
      PassIsGreedy(streams[k - 1], table, traces[k - 1]);
      OneMoreTrace(traces, k - 1);
    } else {
      assert NamesMade(traces[..0]) == {};
    }
  }

  lemma OneMoreTrace(traces: seq<seq<Origin>>, k: nat)
    requires k < |traces|
    ensures NamesMade(traces[..k + 1]) == NamesMade(traces[..k]) + MadeNames(traces[k])
  {
    var before, now := traces[..k], traces[..k + 1];
    forall n | n in NamesMade(now) ensures n in NamesMade(before) + MadeNames(traces[k]) {
      var i, o: Origin :| 0 <= i < |now| && o in now[i] && o.Made? && o.macro.name == n;
      assert i < k ==> before[i] == now[i];
    }
    forall n | n in NamesMade(before) ensures n in NamesMade(now) {
      var i, o: Origin :| 0 <= i < |before| && o in before[i] && o.Made? && o.macro.name == n;
      assert now[i] == before[i];
    }
    assert now[k] == traces[k];
  }

  /** There is such a run. */
  lemma SomeGreedyRun(r: Reading, table: Table) returns (streams: seq<seq<Item>>, traces: seq<seq<Origin>>)
    requires ValidTable(table)
    ensures GreedyRun(r, table, streams, traces)
  {
    var macros := MacroOrder(table);
    var n := if |table.Values| == 0 then 1 else |table.Values|;
    streams := seq(n + 1, k requires 0 <= k < n + 1 => PassN(Raws(r), macros, k));
    traces := seq(n, k requires 0 <= k < n => Trace(PassN(Raws(r), macros, k), macros, 0));
    hide GreedyTrace, Trace, ValidTable, Emitted;
    forall k | 0 <= k < n ensures GreedyStep(table, streams[k], traces[k], streams[k + 1]) {
      PassIsGreedy(streams[k], table, traces[k]);
    }
  }

  /** WHAT A READING COSTS is the price of the last stream of its greedy run, and it uses the macros that
      collapsed a window in some pass. */
  lemma PricedGreedily(r: Reading, table: Table, streams: seq<seq<Item>>, traces: seq<seq<Origin>>)
    requires ValidTable(table) && GreedyRun(r, table, streams, traces)
    ensures var last := streams[|traces|];
      StatsOf(r, table) == Stats(StreamDl(last), |last|, NamesMade(traces))
  {
    RunIs(r, table, streams, traces, |traces|);
    assert traces[..|traces|] == traces;
    hide GreedyRun, StreamDl, PassN, UsedNames, NamesMade;
    assert PassLimit(MacroOrder(table)) == |traces| by {
      LimitIs(r, table, streams, traces);
    }
  }

  lemma LimitIs(r: Reading, table: Table, streams: seq<seq<Item>>, traces: seq<seq<Origin>>)
    requires ValidTable(table) && GreedyRun(r, table, streams, traces)
    ensures PassLimit(MacroOrder(table)) == |traces|
  {
    hide GreedyStep;
  }

  // ---------------------------------------------------------------- what a pass saves

  /** What the collapsed windows cost before, less two tokens and one per parameter for each invocation. */
  ghost function Saved(stmts: seq<Item>, t: seq<Origin>): int {
    if t == [] then 0
    else SavedBy(stmts, t[0]) + Saved(stmts, t[1..])
  }

  ghost function SavedBy(stmts: seq<Item>, o: Origin): int {
    if o.Made? && o.pos + |o.macro.body| <= |stmts| then
      StreamDl(stmts[o.pos..o.pos + |o.macro.body|]) - (2 + |o.macro.params|)
    else 0
  }

  lemma {:induction false} StreamDlConcat(a: seq<Item>, b: seq<Item>)
    ensures StreamDl(a + b) == StreamDl(a) + StreamDl(b)
  {
    if b == [] {
      assert a + b == a;
    } else {
      assert (a + b)[..|a + b| - 1] == a + b[..|b| - 1];
      StreamDlConcat(a, b[..|b| - 1]);
    }
  }

  lemma StreamDlOne(item: Item)
    ensures StreamDl([item]) == ItemDl(item)
  {
    assert [item][..0] == [];
  }

  /** What is emitted for one origin, against what it replaces. */
  lemma OriginSaves(stmts: seq<Item>, macros: seq<Macro>, o: Origin)
    requires OriginRight(stmts, macros, o)
    ensures o.pos + Width(o) <= |stmts|
    ensures ItemDl(ItemOf(stmts, o)) == StreamDl(stmts[o.pos..o.pos + Width(o)]) - SavedBy(stmts, o)
  {
    if o.Copied? {
      StreamDlOne(stmts[o.pos]);
      assert stmts[o.pos..o.pos + 1] == [stmts[o.pos]];
    }
  }

  /** EVERY PASS PAYS EXACTLY. */
  lemma {:induction false} PassSaves(stmts: seq<Item>, macros: seq<Macro>, i: nat)
    requires Bodied(macros) && i <= |stmts|
    ensures StreamDl(Emitted(stmts, Trace(stmts, macros, i))) == StreamDl(stmts[i..]) - Saved(stmts, Trace(stmts, macros, i))
    decreases |stmts| - i
  {
    hide FirstHit, Matches, IsMatch, ItemOf, ItemDl, SavedBy, OriginRight, Emitted, Saved, StreamDl;
    NothingEmitted(stmts);
    if i < |stmts| {
      var o := OriginAt(stmts, macros, i);
      OriginSaves(stmts, macros, o);
      var next := i + Width(o);
      PassSaves(stmts, macros, next);
      SavedAhead(stmts, o, Trace(stmts, macros, next), next);
    }
  }

  lemma NothingEmitted(stmts: seq<Item>)
    ensures StreamDl(Emitted(stmts, [])) == 0 && Saved(stmts, []) == 0 && StreamDl(stmts[|stmts|..]) == 0
  {
  }

  lemma SavedAhead(stmts: seq<Item>, o: Origin, rest: seq<Origin>, next: nat)
    requires o.pos < next <= |stmts| && ItemDl(ItemOf(stmts, o)) == StreamDl(stmts[o.pos..next]) - SavedBy(stmts, o)
    requires StreamDl(Emitted(stmts, rest)) == StreamDl(stmts[next..]) - Saved(stmts, rest)
    ensures StreamDl(Emitted(stmts, [o] + rest)) == StreamDl(stmts[o.pos..]) - Saved(stmts, [o] + rest)
  {
    hide ItemOf, ItemDl, SavedBy, StreamDl;
    assert ([o] + rest)[1..] == rest;
    assert stmts[o.pos..] == stmts[o.pos..next] + stmts[next..];
    StreamDlConcat(stmts[o.pos..next], stmts[next..]);
    assert Emitted(stmts, [o] + rest) == [ItemOf(stmts, o)] + Emitted(stmts, rest);
    StreamDlConcat([ItemOf(stmts, o)], Emitted(stmts, rest));
    StreamDlOne(ItemOf(stmts, o));
  }

  const QUANTITY: Json := Obj(map["kind" := Str("quantity"), "bounds" := Arr([Num(0.0), Num(5.0)])])

  lemma QuantityLeaves()
    ensures Leaves(QUANTITY) == 7 && Leaves(Str("$p0")) == 1
  {
    var bounds := Arr([Num(0.0), Num(5.0)]);
    assert "kind" != "bounds";
    assert QUANTITY.fields["kind"] == Str("quantity") && QUANTITY.fields["bounds"] == bounds;
    assert QUANTITY.fields.Keys == {"kind", "bounds"};
    AnyFieldFirst(QUANTITY, {"kind", "bounds"}, "kind");
    assert {"kind", "bounds"} - {"kind"} == {"bounds"} && {"bounds"} - {"bounds"} == {};
    AnyFieldFirst(QUANTITY, {"bounds"}, "bounds");
    assert ItemLeaves(bounds, 1) == 2 && ItemLeaves(bounds, 2) == 4;
  }

  lemma BodyOfTwo(s: Json, t: Json)
    ensures BodyDl([s, t]) == 2 + Leaves(s) + Leaves(t)
  {
    hide Leaves;
    var both, one := [s, t], [s];
    assert both[..|both| - 1] == one && one[..|one| - 1] == [];
    assert BodyDl(one) == 1 + Leaves(s);
  }

  /** THE PRICE LIST, at one entry of each kind: a logical form, its statement, an invocation with two
      parameters, and a macro that has them. */
  lemma PriceList()
    ensures Leaves(QUANTITY) == 7
    ensures ItemDl(Raw(Obj(map["lf" := QUANTITY]))) == ItemDl(Raw(QUANTITY)) == 8
    ensures ItemDl(Invocation("m", map[], 2)) == 4
    ensures MacroDl(Macro("m", ["p0", "p1"], [QUANTITY, Str("$p0")])) == 13
  {
    QuantityLeaves();
    BodyOfTwo(QUANTITY, Str("$p0"));
    assert "lf" !in QUANTITY.fields;
    assert LfOf(Raw(Obj(map["lf" := QUANTITY]))) == QUANTITY == LfOf(Raw(QUANTITY));
    hide Leaves, BodyDl, QUANTITY;
  }

  // ---------------------------------------------------------------- corpora

  ghost function TableDl(table: Table, names: set<string>): nat
    requires names <= table.Keys
    decreases |names|
  {
    if names == {} then 0
    else
      var n :| n in names;
      MacroDl(table[n]) + TableDl(table, names - {n})
  }

  lemma {:induction false} AnyMacroFirst(table: Table, names: set<string>, n: string)
    requires n in names && names <= table.Keys
    ensures TableDl(table, names) == MacroDl(table[n]) + TableDl(table, names - {n})
    decreases |names|
  {
    var l :| l in names && TableDl(table, names) == MacroDl(table[l]) + TableDl(table, names - {l});
    if l != n {
      AnyMacroFirst(table, names - {l}, n);
      AnyMacroFirst(table, names - {n}, l);
      assert names - {l} - {n} == names - {n} - {l};
    }
  }

  ghost function ReadingsDl(readings: seq<Reading>, table: Table): nat
    requires ValidTable(table)
  {
    if readings == [] then 0
    else ReadingsDl(readings[..|readings| - 1], table) + ReadingDl(readings[|readings| - 1], table)
  }

  /** The total of `corpus_dl`: every macro once, every reading rewritten. */
  ghost function CorpusDl(readings: seq<Reading>, table: Table): nat
    requires ValidTable(table)
  {
    TableDl(table, table.Keys) + ReadingsDl(readings, table)
  }

  /** `reading_uses`: how many readings use a macro. */
  ghost function Uses(readings: seq<Reading>, table: Table, name: string): nat
    requires ValidTable(table)
  {
    if readings == [] then 0
    else
      Uses(readings[..|readings| - 1], table, name)
      + if name in StatsOf(readings[|readings| - 1], table).used then 1 else 0
  }

  /** USES ARE READINGS: a macro is used as often as there are readings with a window it collapsed. */
  lemma {:induction false} UsesCount(readings: seq<Reading>, table: Table, name: string)
    requires ValidTable(table)
    ensures Uses(readings, table, name)
      == |set i | 0 <= i < |readings| && name in StatsOf(readings[i], table).used :: i|
  {
    hide StatsOf, ValidTable;
    if readings != [] {
      var n := |readings| - 1;
      UsesCount(readings[..n], table, name);
      var before := set i | 0 <= i < n && name in StatsOf(readings[..n][i], table).used :: i;
      var now := set i | 0 <= i < |readings| && name in StatsOf(readings[i], table).used :: i;
      assert now == before + if name in StatsOf(readings[n], table).used then {n} else {};
    }
  }

  lemma {:induction false} ReadingsDlConcat(a: seq<Reading>, b: seq<Reading>, table: Table)
    requires ValidTable(table)
    ensures ReadingsDl(a + b, table) == ReadingsDl(a, table) + ReadingsDl(b, table)
  {
    hide ReadingDl, ValidTable;
    if b == [] {
      assert a + b == a;
    } else {
      assert (a + b)[..|a + b| - 1] == a + b[..|b| - 1];
      ReadingsDlConcat(a, b[..|b| - 1], table);
    }
  }

  // ---------------------------------------------------------------- the memo

  /** Two valid tables with the same macros are the same table: the content key loses nothing. */
  lemma SameMacrosSameTable(a: Table, b: Table)
    requires ValidTable(a) && ValidTable(b) && a.Values == b.Values
    ensures a == b
  {
    forall n | n in a ensures n in b && b[n] == a[n] {
      assert a[n] in b.Values;
    }
    forall n | n in b ensures n in a {
      assert b[n] in a.Values;
    }
  }

  /** The pricing memo, keyed by the reading and the macros of the table. */
  class PricingMemo {
    var cache: map<(Reading, set<Macro>), Stats>
    const cap: nat

    ghost predicate Valid()
      reads this
    {
      && |cache| <= (if cap > 0 then cap else 1)
      && forall r, t: Table | ValidTable(t) && (r, t.Values) in cache :: cache[(r, t.Values)] == StatsOf(r, t)
    }

    constructor (max: nat)
      ensures Valid() && cap == max && cache == map[]
    {
      cache, cap := map[], max;
    }

    /** `_reading_stats`: a hit returns what recomputation would, and the memo stays within its cap. */
    method ReadingStats(r: Reading, table: Table) returns (stats: Stats)
      requires Valid() && ValidTable(table)
      modifies this
      ensures Valid() && stats == StatsOf(r, table)
    {
      var key := (r, table.Values);
      if key in cache {
        return cache[key];
      }
      stats := Recode(r, table);
      if |cache| >= cap {
        cache := map[];
      }
      ghost var before := cache;
      cache := cache[key := stats];
      forall r', t: Table | ValidTable(t) && (r', t.Values) in cache
        ensures cache[(r', t.Values)] == StatsOf(r', t)
      {
        if (r', t.Values) == key {
          SameMacrosSameTable(t, table);
        } else {
          assert (r', t.Values) in before;
        }
      }
    }

    method TableCost(table: Table) returns (dl: nat)
      ensures dl == TableDl(table, table.Keys)
    {
      dl := 0;
      var rest := table.Keys;
      while rest != {}
        invariant rest <= table.Keys && dl + TableDl(table, rest) == TableDl(table, table.Keys)
      {
        var n :| n in rest;
        AnyMacroFirst(table, rest, n);
        var cost := MacroCost(table[n]);
        dl, rest := dl + cost, rest - {n};
      }
    }

    /** `corpus_dl`: the total, and the uses of one macro. */
    method Corpus(readings: seq<Reading>, table: Table, name: string) returns (total: nat, uses: nat)
      requires Valid() && ValidTable(table)
      modifies this
      ensures Valid()
      ensures total == CorpusDl(readings, table) && uses == Uses(readings, table, name)
    {
      total := TableCost(table);
      uses := 0;
      for i := 0 to |readings|
        invariant Valid()
        invariant total == TableDl(table, table.Keys) + ReadingsDl(readings[..i], table)
        invariant uses == Uses(readings[..i], table, name)
      {
        assert readings[..i + 1][..i] == readings[..i];
        var stats := ReadingStats(readings[i], table);
        total := total + stats.dl;
        uses := uses + if name in stats.used then 1 else 0;
      }
      assert readings[..|readings|] == readings;
    }
  }
}
