/** When a name stands for one macro, and what greedy growth with the miner of `buildloop/recurrence.py`
    ends with. */
module MinedTables {
  import opened Order
  import opened Templates
  import opened Rewriting
  import opened Expansion
  import opened Pricing
  import opened AntiUnification
  import opened MinedBodies
  import opened Growth
  import opened Mining

  // ---------------------------------------------------------------- one body, one macro

  /** THE MACRO OF A BODY. Two clusters give the same macro if and only if they give the same body and
      have equally many differing tuples: a name, taken of the body, does not fix the parameters. */
  lemma SameMacro(rules: Rules, windows: seq<seq<Json>>, windows': seq<seq<Json>>)
    requires Occurrences(windows) && Occurrences(windows')
    ensures MacroOf(rules, windows) == MacroOf(rules, windows')
      <==> BodyOf(windows) == BodyOf(windows') && |WindowsDiffering(windows)| == |WindowsDiffering(windows')|
  {
    hide BodyOf, WindowsDiffering, FirstNames, SortedSet;
    NamesCount(|WindowsDiffering(windows)|);
    NamesCount(|WindowsDiffering(windows')|);
  }

  lemma NamesCount(n: nat)
    ensures |SortedSet(FirstNames(n))| == n
  {
    FirstNamesCount(n);
    hide FirstNames, SortedSet;
    assert |multiset(SortedSet(FirstNames(n)))| == |multiset(FirstNames(n))|;
  }

  /** Of two candidates with one body, mined from any corpora for any tables. */
  lemma NameFixesMacro(rules: Rules, readings: seq<Reading>, table: Table, key: Key, c: Offered,
                       readings': seq<Reading>, table': Table, key': Key, c': Offered)
    requires ProperWindows(rules)
    requires ValidTable(table) && Sound(rules, readings, table, key, c)
    requires ValidTable(table') && Sound(rules, readings', table', key', c')
    requires c.candidate.body == c'.candidate.body
    ensures c.candidate.name == c'.candidate.name
    ensures c.candidate == c'.candidate
      <==> |WindowsDiffering(WindowsAt(rules, readings, key))| == |WindowsDiffering(WindowsAt(rules, readings', key'))|
  {
    hide ProperWindows, WindowsAt, Cluster, ValidTable, Passes, Priced, Verified, BodyOf, WindowsDiffering, FirstNames,
      SortedSet;
    PassingIsCluster(rules, readings, table, key);
    PassingIsCluster(rules, readings', table', key');
    SameMacro(rules, WindowsAt(rules, readings, key), WindowsAt(rules, readings', key'));
  }

  ghost predicate Generated(p: string) {
    exists n: nat :: p == ParamName(n)
  }

  ghost predicate NoneGenerated(lf: Json) {
    forall p | p in Params(lf) :: !Generated(p)
  }

  /** The parameters of a generalization come from the data or from the memo. */
  lemma {:induction false} ParamsComeFrom(values: seq<Json>, t: Json, memo: Memo)
    requires values != [] && Generalizes(values, t, memo)
    ensures Params(t) <= Params(values[0]) + memo.Values
    decreases values[0]
  {
    if AllEqual(values) {
    } else if AllObjects(values) {
      forall k | k in values[0].fields ensures Params(t.fields[k]) <= Params(values[0].fields[k]) + memo.Values {
        ParamsComeFrom(FieldOf(values, k), t.fields[k], memo);
      }
    } else if AllLists(values) {
      forall i | 0 <= i < |values[0].items| ensures Params(t.items[i]) <= Params(values[0].items[i]) + memo.Values {
        ParamsComeFrom(ItemAt(values, i), t.items[i], memo);
      }
    } else {
      assert t.s[1..] == memo[values];
    }
  }

  /** Without look-alikes the parameters are those names of the body that mining generates. */
  lemma NamesOfBody(windows: seq<seq<Json>>, body: seq<Json>, params: seq<string>, memo: Memo)
    requires Occurrences(windows) && Mined(windows, body, params, memo)
    requires forall lf | lf in windows[0] :: NoneGenerated(lf)
    ensures forall p :: p in memo.Values <==> p in Params(Arr(body)) && Generated(p)
  {
    MemoGenerated(windows, body, params, memo);
    hide Generated, NoneGenerated, Mined, Params;
    forall p | p in Params(Arr(body)) && Generated(p) ensures p in memo.Values {
      GeneratedInMemo(windows, body, params, memo, p);
    }
  }

  lemma MemoGenerated(windows: seq<seq<Json>>, body: seq<Json>, params: seq<string>, memo: Memo)
    requires Occurrences(windows) && Mined(windows, body, params, memo)
    ensures forall p | p in memo.Values :: Generated(p) && p in Params(Arr(body))
  {
    hide ParamName, Params, Generalizes, WindowsDiffering, Sorted;
    forall p | p in memo.Values ensures Generated(p) {
      var v :| v in memo && memo[v] == p;
      assert IsName(memo[v], |memo|);
    }
  }

  lemma GeneratedInMemo(windows: seq<seq<Json>>, body: seq<Json>, params: seq<string>, memo: Memo, p: string)
    requires Occurrences(windows) && Mined(windows, body, params, memo)
    requires (forall lf | lf in windows[0] :: NoneGenerated(lf)) && p in Params(Arr(body)) && Generated(p)
    ensures p in memo.Values
  {
    var j := ParamAt(body, p);
    hide Params, Generated, Generalizes, WindowsDiffering, ValidMemo, Sorted;
    ParamsComeFrom(Column(windows, j), body[j], memo);
    assert Column(windows, j)[0] == windows[0][j];
    assert NoneGenerated(windows[0][j]);
  }

  lemma ParamAt(body: seq<Json>, p: string) returns (j: nat)
    requires p in Params(Arr(body))
    ensures j < |body| && p in Params(body[j])
  {
    j :| 0 <= j < |body| && p in Params(body[j]);
  }

  lemma SameNames(windows: seq<seq<Json>>, body: seq<Json>, params: seq<string>, memo: Memo,
                  windows': seq<seq<Json>>, params': seq<string>, memo': Memo)
    requires Occurrences(windows) && Mined(windows, body, params, memo)
    requires Occurrences(windows') && Mined(windows', body, params', memo')
    requires forall lf | lf in windows[0] || lf in windows'[0] :: NoneGenerated(lf)
    ensures memo.Values == memo'.Values
  {
    hide Params, Generated, NoneGenerated, Mined;
    NamesOfBody(windows, body, params, memo);
    NamesOfBody(windows', body, params', memo');
  }

  /** Without strings "$p0", "$p1", ... in the data the body does fix the macro. */
  lemma PlainDataFixesMacro(rules: Rules, windows: seq<seq<Json>>, m: Macro, windows': seq<seq<Json>>, m': Macro)
    requires Occurrences(windows) && Verified(windows, m) && Occurrences(windows') && Verified(windows', m')
    requires m.body == m'.body && forall lf | lf in windows[0] || lf in windows'[0] :: NoneGenerated(lf)
    ensures |WindowsDiffering(windows)| == |WindowsDiffering(windows')| && m.params == m'.params
  {
    hide Params, NoneGenerated, Matches, Mined, MemoOf, BodyOf, WindowsDiffering, FirstNames, SortedSet;
    var memo :| Mined(windows, m.body, m.params, memo);
    var memo' :| Mined(windows', m'.body, m'.params, memo');
    SameNames(windows, m.body, m.params, memo, windows', m'.params, memo');
    MinedUnique(windows, m.body, m.params, memo);
    MinedUnique(windows', m'.body, m'.params, memo');
    ParamsAreValues(windows, m.body, m.params, memo);
    ParamsAreValues(windows', m'.body, m'.params, memo');
  }

  lemma ParamsAreValues(windows: seq<seq<Json>>, body: seq<Json>, params: seq<string>, memo: Memo)
    requires Occurrences(windows) && Mined(windows, body, params, memo)
    ensures params == SortedSet(memo.Values)
  {
    hide Generalizes, ValidMemo, WindowsDiffering, MemoOf, Params;
    SortedSetIs(memo.Values, params);
  }

  // ---------------------------------------------------------------- mining and growing

  function CandidatesOf(out: seq<Offered>): seq<Macro> {
    seq(|out|, i requires 0 <= i < |out| => out[i].candidate)
  }

  /** A function that returns what `Mine` does. */
  ghost predicate MinesLike(mine: Miner, rules: Rules, exogenousOnly: bool)
    requires ProperWindows(rules)
  {
    forall corpus, table | ValidTable(table) :: Lists(mine, rules, exogenousOnly, corpus, table)
  }

  ghost predicate Lists(mine: Miner, rules: Rules, exogenousOnly: bool, corpus: seq<Reading>, table: Table)
    requires ValidTable(table) && ProperWindows(rules)
  {
    exists out :: ListFor(rules, corpus, table, exogenousOnly, out) && mine(corpus, table) == CandidatesOf(out)
  }

  ghost predicate Offers(mine: Miner, corpus: seq<Reading>, table: Table, m: Macro) {
    ValidTable(table) && m in mine(corpus, table)
  }

  /** What the miner offers is sound. */
  lemma OfferedIsSound(mine: Miner, rules: Rules, exogenousOnly: bool, corpus: seq<Reading>, table: Table, m: Macro)
      returns (key: Key, c: Offered)
    requires ProperWindows(rules) && MinesLike(mine, rules, exogenousOnly) && Offers(mine, corpus, table, m)
    ensures c.candidate == m && Sound(rules, Witnesses(corpus, exogenousOnly), table, key, c)
  {
    hide ProperWindows, Sound, Passes, BySaving, Cluster, ValidTable;
    assert Lists(mine, rules, exogenousOnly, corpus, table);
    var out :| ListFor(rules, corpus, table, exogenousOnly, out) && mine(corpus, table) == CandidatesOf(out);
    var i :| 0 <= i < |mine(corpus, table)| && mine(corpus, table)[i] == m;
    c := out[i];
    assert c in out;
    key :| Sound(rules, Witnesses(corpus, exogenousOnly), table, key, c);
  }

  lemma OfferedIsAdmissible(mine: Miner, rules: Rules, exogenousOnly: bool, corpus: seq<Reading>, table: Table, m: Macro)
    requires ProperWindows(rules) && MinesLike(mine, rules, exogenousOnly) && Offers(mine, corpus, table, m)
    ensures Admissible(Witnesses(corpus, exogenousOnly), m, table)
  {
    hide ProperWindows, MinesLike, Offers, Cluster, TwoReadings, Matches, Mined, CorpusDl, Uses, Admissible;
    var key, c := OfferedIsSound(mine, rules, exogenousOnly, corpus, table, m);
  }

  /** Two different readings have a window of the key, its logical forms objects. */
  ghost predicate SharedKey(rules: Rules, readings: seq<Reading>, key: Key) {
    exists i, j, v, w :: WindowIn(rules, readings, key, i, v) && WindowIn(rules, readings, key, j, w) && i != j
  }

  ghost predicate WindowIn(rules: Rules, readings: seq<Reading>, key: Key, i: int, w: Demand) {
    0 <= i < |readings| && w in rules.windows(readings[i]) && w.key == key && forall lf | lf in w.lfs :: lf.Obj?
  }

  lemma TwoReadingsMeans(rules: Rules, readings: seq<Reading>, key: Key)
    ensures TwoReadings(Cluster(rules, readings, key)) <==> SharedKey(rules, readings, key)
  {
    var occ := Cluster(rules, readings, key);
    if TwoReadings(occ) {
      var i, j :| 0 <= i < j < |occ| && occ[i].reading != occ[j].reading;
      var v := WindowOf(rules, readings, key, occ[i]);
      var w := WindowOf(rules, readings, key, occ[j]);
    }
    if SharedKey(rules, readings, key) {
      var i, j, v, w :| WindowIn(rules, readings, key, i, v) && WindowIn(rules, readings, key, j, w) && i != j;
      ClusterHolds(rules, readings, key, Occurrence(i, v.lfs));
      ClusterHolds(rules, readings, key, Occurrence(j, w.lfs));
      var k :| 0 <= k < |occ| && occ[k] == Occurrence(i, v.lfs);
      var l :| 0 <= l < |occ| && occ[l] == Occurrence(j, w.lfs);
      assert k != l;
    }
  }

  lemma WindowOf(rules: Rules, readings: seq<Reading>, key: Key, o: Occurrence) returns (w: Demand)
    requires o in Cluster(rules, readings, key)
    ensures WindowIn(rules, readings, key, o.reading, w) && w.lfs == o.lfs
  {
    ClusterHolds(rules, readings, key, o);
    w :| w in rules.windows(readings[o.reading]) && w.key == key && w.lfs == o.lfs && OnlyForms(w.lfs);
  }

  /** What the macro must meet: mined from all windows of a key that two readings share, let through by the
      filters, without a collision, shortening the corpus, and collapsing a window in two readings. */
  ghost predicate Earned(rules: Rules, readings: seq<Reading>, table: Table, key: Key, m: Macro)
    requires ValidTable(table) && ProperWindows(rules)
  {
    && SharedKey(rules, readings, key) && Cluster(rules, readings, key) != []
    && (exists memo :: Mined(WindowsAt(rules, readings, key), m.body, m.params, memo)) && m.name == rules.nameOf(m.body)
    && rules.concrete(m.body) && rules.slots(m.body, m.params, WindowsAt(rules, readings, key))
    && NoCollision(WindowsAt(rules, readings, key))
    && m.body != [] && CorpusDl(readings, table[m.name := m]) < CorpusDl(readings, table)
    && UsedTwice(readings, table[m.name := m], m.name)
  }

  lemma EarnedPasses(rules: Rules, readings: seq<Reading>, table: Table, key: Key, m: Macro)
    requires ValidTable(table) && ProperWindows(rules) && Earned(rules, readings, table, key, m)
    ensures Passes(rules, readings, table, key) && m == MacroOf(rules, WindowsAt(rules, readings, key))
  {
    TwoReadingsMeans(rules, readings, key);
    AdmittedExactly(readings, m, table);
    hide ProperWindows, ValidTable, Cluster, WindowsAt, Mined, CorpusDl, Uses, UsedTwice, NoCollision, Admissible,
      BodyOf, MemoOf, SortedSet, FirstNames, WindowsDiffering, SharedKey, TwoReadings;
    var windows := WindowsAt(rules, readings, key);
    var memo :| Mined(windows, m.body, m.params, memo);
    MinedUnique(windows, m.body, m.params, memo);
  }

  lemma SoundEarned(rules: Rules, readings: seq<Reading>, table: Table, key: Key, c: Offered)
    requires ValidTable(table) && ProperWindows(rules) && Sound(rules, readings, table, key, c)
    ensures Earned(rules, readings, table, key, c.candidate)
  {
    TwoReadingsMeans(rules, readings, key);
    PassingIsCluster(rules, readings, table, key);
    hide ProperWindows, ValidTable, Cluster, WindowsAt, Mined, CorpusDl, Uses, UsedTwice, NoCollision,
      BodyOf, MemoOf, SortedSet, FirstNames, WindowsDiffering, SharedKey, TwoReadings, Matches;
    AdmittedExactly(readings, c.candidate, table);
  }

  /** WHAT IS OFFERED, EXACTLY: the macros that some key earns. */
  lemma OfferedExactly(mine: Miner, rules: Rules, exogenousOnly: bool, corpus: seq<Reading>, table: Table, m: Macro)
    requires ProperWindows(rules) && MinesLike(mine, rules, exogenousOnly) && ValidTable(table)
    ensures m in mine(corpus, table) <==> exists key :: Earned(rules, Witnesses(corpus, exogenousOnly), table, key, m)
  {
    hide *;
    var readings := Witnesses(corpus, exogenousOnly);
    if m in mine(corpus, table) {
      AreOffered(mine, corpus, table);
      var key, c := OfferedIsSound(mine, rules, exogenousOnly, corpus, table, m);
      SoundEarned(rules, readings, table, key, c);
    }
    if key :| Earned(rules, readings, table, key, m) {
      EarnedPasses(rules, readings, table, key, m);
      PassingOffered(mine, rules, exogenousOnly, corpus, table, key);
    }
  }

  lemma PassingOffered(mine: Miner, rules: Rules, exogenousOnly: bool, corpus: seq<Reading>, table: Table, key: Key)
    requires ProperWindows(rules) && MinesLike(mine, rules, exogenousOnly) && ValidTable(table)
    requires Passes(rules, Witnesses(corpus, exogenousOnly), table, key)
    ensures Cluster(rules, Witnesses(corpus, exogenousOnly), key) != []
    ensures MacroOf(rules, WindowsAt(rules, Witnesses(corpus, exogenousOnly), key)) in mine(corpus, table)
  {
    var readings := Witnesses(corpus, exogenousOnly);
    PassingIsCluster(rules, readings, table, key);
    hide ProperWindows, MinesLike, ListFor, CandidatesOf, Verified, Priced, Passes, Cluster, ValidTable, WindowsAt, MacroOf, Witnesses;
    var out := ListingOf(mine, rules, exogenousOnly, corpus, table);
    var c := ListedFor(rules, exogenousOnly, corpus, table, key, out);
    CandidateListed(out, c);
  }

  lemma ListingOf(mine: Miner, rules: Rules, exogenousOnly: bool, corpus: seq<Reading>, table: Table)
      returns (out: seq<Offered>)
    requires ProperWindows(rules) && MinesLike(mine, rules, exogenousOnly) && ValidTable(table)
    ensures ListFor(rules, corpus, table, exogenousOnly, out) && mine(corpus, table) == CandidatesOf(out)
  {
    hide ProperWindows, ListFor, CandidatesOf, ValidTable;
    assert Lists(mine, rules, exogenousOnly, corpus, table);
    out :| ListFor(rules, corpus, table, exogenousOnly, out) && mine(corpus, table) == CandidatesOf(out);
  }

  lemma ListedFor(rules: Rules, exogenousOnly: bool, corpus: seq<Reading>, table: Table, key: Key, out: seq<Offered>)
      returns (c: Offered)
    requires ProperWindows(rules) && ValidTable(table) && ListFor(rules, corpus, table, exogenousOnly, out)
    requires Passes(rules, Witnesses(corpus, exogenousOnly), table, key)
    ensures c in out && Sound(rules, Witnesses(corpus, exogenousOnly), table, key, c)
  {
    hide ProperWindows, Passes, ValidTable, Sound, AllSound, Sorted, BySaving, Witnesses;
    c :| c in out && Sound(rules, Witnesses(corpus, exogenousOnly), table, key, c);
  }

  lemma CandidateListed(out: seq<Offered>, c: Offered)
    requires c in out
    ensures c.candidate in CandidatesOf(out)
  {
    var i :| 0 <= i < |out| && out[i] == c;
    assert CandidatesOf(out)[i] == c.candidate;
  }

  lemma OfferedHasBody(mine: Miner, rules: Rules, exogenousOnly: bool)
    requires ProperWindows(rules) && MinesLike(mine, rules, exogenousOnly)
    ensures ProposesBodies(mine)
  {
    hide ProperWindows, MinesLike, CorpusDl, Uses;
    forall corpus, table, m | ValidTable(table) && m in mine(corpus, table) ensures m.body != [] {
      OfferedIsAdmissible(mine, rules, exogenousOnly, corpus, table, m);
    }
  }

  lemma NothingGained(readings: seq<Reading>, table: Table, m: Macro)
    ensures m.name in table && table[m.name] == m ==> !Admissible(readings, m, table)
  {
    hide CorpusDl, Uses;
    assert m.name in table && table[m.name] == m ==> table[m.name := m] == table;
  }

  /** A different macro of the table has the name. */
  predicate Namesake(table: Table, m: Macro) {
    m.name in table && table[m.name] != m
  }

  /** A macro the table has already is never offered for it. */
  lemma OfferedIsNotInTable(mine: Miner, rules: Rules, exogenousOnly: bool, corpus: seq<Reading>, table: Table, m: Macro)
    requires ProperWindows(rules) && MinesLike(mine, rules, exogenousOnly) && Offers(mine, corpus, table, m)
    ensures Admissible(Witnesses(corpus, exogenousOnly), m, table)
    ensures m.name in table ==> Namesake(table, m)
  {
    OfferedIsAdmissible(mine, rules, exogenousOnly, corpus, table, m);
    NothingGained(Witnesses(corpus, exogenousOnly), table, m);
  }

  lemma SoundPasses(rules: Rules, readings: seq<Reading>, table: Table, key: Key, c: Offered)
    requires ProperWindows(rules) && ValidTable(table) && Sound(rules, readings, table, key, c)
    ensures Passes(rules, readings, table, key)
  {
    hide ProperWindows, Passes, Cluster, ValidTable, Verified, Priced;
  }

  /** Nothing is offered if and only if no cluster passes. */
  lemma OfferedIff(mine: Miner, rules: Rules, exogenousOnly: bool, corpus: seq<Reading>, table: Table)
    requires ProperWindows(rules) && MinesLike(mine, rules, exogenousOnly) && ValidTable(table)
    ensures mine(corpus, table) == [] <==> forall key :: !Passes(rules, Witnesses(corpus, exogenousOnly), table, key)
  {
    hide ProperWindows, Passes, BySaving, Cluster, ValidTable, Sound, AllSound;
    var readings := Witnesses(corpus, exogenousOnly);
    assert Lists(mine, rules, exogenousOnly, corpus, table);
    var out :| ListFor(rules, corpus, table, exogenousOnly, out) && mine(corpus, table) == CandidatesOf(out);
    if mine(corpus, table) != [] {
      var key, c := OfferedIsSound(mine, rules, exogenousOnly, corpus, table, mine(corpus, table)[0]);
      SoundPasses(rules, readings, table, key, c);
    }
    forall key | Passes(rules, readings, table, key) ensures mine(corpus, table) != [] {
      var c :| c in out && Sound(rules, readings, table, key, c);
    }
  }

  /** WHERE GROWTH ENDS, for any data and names: everything still offered for the grown table has a
      namesake in it, and is passed over for its name alone. */
  lemma OnlyNamesakesLeft(mine: Miner, rules: Rules, exogenousOnly: bool, corpus: seq<Reading>, table: Table)
    requires ProperWindows(rules) && MinesLike(mine, rules, exogenousOnly) && ValidTable(table)
    ensures ProposesBodies(mine)
    ensures var grown := Grown(table, corpus, exogenousOnly, mine);
      forall m | m in mine(corpus, grown) ::
        Namesake(grown, m) && Admissible(Witnesses(corpus, exogenousOnly), m, grown)
  {
    OfferedHasBody(mine, rules, exogenousOnly);
    GrowthPays(table, corpus, exogenousOnly, mine);
    hide ProperWindows, MinesLike, CorpusDl, Uses, Grown, Admissible, Namesake;
    var grown := Grown(table, corpus, exogenousOnly, mine);
    forall m | m in mine(corpus, grown)
      ensures Namesake(grown, m) && Admissible(Witnesses(corpus, exogenousOnly), m, grown)
    {
      OfferedIsNotInTable(mine, rules, exogenousOnly, corpus, grown, m);
    }
  }

  // ---------------------------------------------------------------- when names fix macros

  /** The cluster's macro is the table's macro of that name, if the table has one. */
  ghost predicate AgreesAt(rules: Rules, readings: seq<Reading>, table: Table, key: Key)
    requires ProperWindows(rules) && Cluster(rules, readings, key) != []
  {
    !Namesake(table, MacroOf(rules, WindowsAt(rules, readings, key)))
  }

  /** No macro of the table is the namesake of what a cluster of the corpus gives. */
  ghost predicate TableAgrees(rules: Rules, readings: seq<Reading>, table: Table)
    requires ProperWindows(rules)
  {
    forall key | Cluster(rules, readings, key) != [] :: AgreesAt(rules, readings, table, key)
  }

  /** Clusters of the corpus whose bodies get one name have one body and equally many differing tuples. */
  ghost predicate NamesFixMacros(rules: Rules, readings: seq<Reading>)
    requires ProperWindows(rules)
  {
    forall key, key' | Cluster(rules, readings, key) != [] && Cluster(rules, readings, key') != [] ::
      NameFixes(rules, WindowsAt(rules, readings, key), WindowsAt(rules, readings, key'))
  }

  ghost predicate NameFixes(rules: Rules, windows: seq<seq<Json>>, windows': seq<seq<Json>>)
    requires Occurrences(windows) && Occurrences(windows')
  {
    rules.nameOf(BodyOf(windows)) == rules.nameOf(BodyOf(windows')) ==>
      BodyOf(windows) == BodyOf(windows') && |WindowsDiffering(windows)| == |WindowsDiffering(windows')|
  }

  lemma NewToTable(mine: Miner, rules: Rules, exogenousOnly: bool, corpus: seq<Reading>, table: Table, m: Macro)
      returns (key: Key)
    requires ProperWindows(rules) && MinesLike(mine, rules, exogenousOnly) && Offers(mine, corpus, table, m)
    requires TableAgrees(rules, Witnesses(corpus, exogenousOnly), table)
    ensures m.name !in table && Admissible(Witnesses(corpus, exogenousOnly), m, table)
    ensures Cluster(rules, Witnesses(corpus, exogenousOnly), key) != []
    ensures m == MacroOf(rules, WindowsAt(rules, Witnesses(corpus, exogenousOnly), key))
  {
    hide ProperWindows, MinesLike, Passes, Cluster, WindowsAt, MacroOf, Verified, Priced, Admissible, ValidTable;
    var readings := Witnesses(corpus, exogenousOnly);
    OfferedIsNotInTable(mine, rules, exogenousOnly, corpus, table, m);
    var c;
    key, c := OfferedIsSound(mine, rules, exogenousOnly, corpus, table, m);
    PassingIsCluster(rules, readings, table, key);
    assert AgreesAt(rules, readings, table, key);
  }

  /** THE GATE IS NEVER THE REASON. Whatever `Mine` offers for a table without namesakes of the corpus is new
      to it and passes the gate, so growth takes the first candidate of the list, the one that saves most. */
  lemma MinedPasses(mine: Miner, rules: Rules, exogenousOnly: bool, corpus: seq<Reading>, table: Table, m: Macro)
    requires ProperWindows(rules) && MinesLike(mine, rules, exogenousOnly) && Offers(mine, corpus, table, m)
    requires TableAgrees(rules, Witnesses(corpus, exogenousOnly), table)
    ensures m.name !in table && Admissible(Witnesses(corpus, exogenousOnly), m, table)
    ensures FirstAdmissible(mine(corpus, table), Witnesses(corpus, exogenousOnly), table) == 0
  {
    hide ProperWindows, MinesLike, TableAgrees, CorpusDl, Uses, Admissible, WindowsAt, MacroOf;
    var key := NewToTable(mine, rules, exogenousOnly, corpus, table, m);
    key := NewToTable(mine, rules, exogenousOnly, corpus, table, mine(corpus, table)[0]);
  }

  lemma StillAgrees(rules: Rules, readings: seq<Reading>, table: Table, key: Key)
    requires ProperWindows(rules) && NamesFixMacros(rules, readings) && TableAgrees(rules, readings, table)
    requires Cluster(rules, readings, key) != []
    ensures var m := MacroOf(rules, WindowsAt(rules, readings, key));
      TableAgrees(rules, readings, table[m.name := m])
  {
    hide ProperWindows, Cluster, WindowsAt, BodyOf, WindowsDiffering, FirstNames, SortedSet;
    var m := MacroOf(rules, WindowsAt(rules, readings, key));
    forall other | Cluster(rules, readings, other) != [] ensures AgreesAt(rules, readings, table[m.name := m], other) {
      assert AgreesAt(rules, readings, table, other);
      assert NameFixes(rules, WindowsAt(rules, readings, key), WindowsAt(rules, readings, other));
      SameMacro(rules, WindowsAt(rules, readings, key), WindowsAt(rules, readings, other));
    }
  }

  /** GROWTH ENDS WHERE MINING ENDS: with the grown table the miner offers nothing more. */
  lemma {:induction false} GrownIsMinedOut(mine: Miner, rules: Rules, exogenousOnly: bool, corpus: seq<Reading>,
                                           table: Table)
    requires ProperWindows(rules) && MinesLike(mine, rules, exogenousOnly) && ValidTable(table)
    requires NamesFixMacros(rules, Witnesses(corpus, exogenousOnly))
    requires TableAgrees(rules, Witnesses(corpus, exogenousOnly), table)
    ensures ProposesBodies(mine)
    ensures mine(corpus, Grown(table, corpus, exogenousOnly, mine)) == []
    decreases CorpusDl(Witnesses(corpus, exogenousOnly), table)
  {
    hide *;
    OfferedHasBody(mine, rules, exogenousOnly);
    var cands := mine(corpus, table);
    if cands == [] {
      GrownStays(mine, exogenousOnly, corpus, table);
    } else {
      AreOffered(mine, corpus, table);
      MinedPasses(mine, rules, exogenousOnly, corpus, table, cands[0]);
      var key := NewToTable(mine, rules, exogenousOnly, corpus, table, cands[0]);
      StillAgrees(rules, Witnesses(corpus, exogenousOnly), table, key);
      GrownByFirst(mine, exogenousOnly, corpus, table);
      GrownIsMinedOut(mine, rules, exogenousOnly, corpus, table[cands[0].name := cands[0]]);
    }
  }

  lemma AreOffered(mine: Miner, corpus: seq<Reading>, table: Table)
    requires ValidTable(table)
    ensures forall m | m in mine(corpus, table) :: Offers(mine, corpus, table, m)
  {
  }

  lemma GrownStays(mine: Miner, exogenousOnly: bool, corpus: seq<Reading>, table: Table)
    requires ValidTable(table) && ProposesBodies(mine) && mine(corpus, table) == []
    ensures Grown(table, corpus, exogenousOnly, mine) == table
  {
    hide CorpusDl, Uses, Witnesses;
  }

  /** One step of growth, by the first candidate of the list. */
  lemma GrownByFirst(mine: Miner, exogenousOnly: bool, corpus: seq<Reading>, table: Table)
    requires ValidTable(table) && ProposesBodies(mine) && mine(corpus, table) != []
    requires FirstAdmissible(mine(corpus, table), Witnesses(corpus, exogenousOnly), table) == 0
    requires mine(corpus, table)[0].name !in table
    requires Admissible(Witnesses(corpus, exogenousOnly), mine(corpus, table)[0], table)
    ensures var m := mine(corpus, table)[0];
      var next := table[m.name := m];
      && ValidTable(next)
      && CorpusDl(Witnesses(corpus, exogenousOnly), next) < CorpusDl(Witnesses(corpus, exogenousOnly), table)
      && Grown(table, corpus, exogenousOnly, mine) == Grown(next, corpus, exogenousOnly, mine)
  {
    hide CorpusDl, Uses, Witnesses;
  }
}
