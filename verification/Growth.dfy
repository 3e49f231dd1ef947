/** Growing and collecting the macro table: `macro_admission_decision` of `buildloop/mdl_macros.py`,
    `_greedy_grow` of `bench/bench_formalize.py`, `gc_table` and `gc_macros` of
    `buildloop/recurrence.py`. */
module Growth {
  import opened Order
  import opened Templates
  import opened Rewriting
  import opened Expansion
  import opened Pricing
  import opened Wrappers

  /** The miner, whatever it proposes: candidates for a corpus and a live table. */
  type Miner = (seq<Reading>, Table) -> seq<Macro>

  ghost predicate ProposesBodies(mine: Miner) {
    forall corpus, table, m | ValidTable(table) && m in mine(corpus, table) :: m.body != []
  }

  /** The readings that may witness and price: all of them without a filter. */
  function Witnesses(readings: seq<Reading>, exogenousOnly: bool): seq<Reading> {
    if readings == [] then []
    else
      var n := |readings| - 1;
      Witnesses(readings[..n], exogenousOnly)
      + if exogenousOnly && readings[n].origin != "exogenous" then [] else [readings[n]]
  }

  /** The gate: strictly shorter, and used by at least two readings. */
  ghost predicate Admissible(readings: seq<Reading>, m: Macro, table: Table)
  {
    && ValidTable(table) && m.body != []
    && CorpusDl(readings, table[m.name := m]) < CorpusDl(readings, table)
    && Uses(readings, table[m.name := m], m.name) >= 2
  }

  method AdmissionDecision(readings: seq<Reading>, m: Macro, table: Table, exogenousOnly: bool, memo: PricingMemo)
      returns (admit: bool)
    requires memo.Valid() && ValidTable(table) && m.body != []
    modifies memo
    ensures memo.Valid() && admit == Admissible(Witnesses(readings, exogenousOnly), m, table)
  {
    var kept := Witnesses(readings, exogenousOnly);
    var before, _ := memo.Corpus(kept, table, m.name);
    var after, uses := memo.Corpus(kept, table[m.name := m], m.name);
    admit := after < before && uses >= 2;
  }

  // ---------------------------------------------------------------- growing

  /** The first candidate that is new and clears the gate; |cands| when none does. */
  ghost function FirstAdmissible(cands: seq<Macro>, readings: seq<Reading>, table: Table): nat {
    FirstIndex(cands, (m: Macro) => m.name !in table && Admissible(readings, m, table))
  }

  /** The table `_greedy_grow` ends with. */
  ghost function Grown(table: Table, corpus: seq<Reading>, exogenousOnly: bool, mine: Miner): (table': Table)
    requires ValidTable(table) && ProposesBodies(mine)
    ensures ValidTable(table')
    decreases CorpusDl(Witnesses(corpus, exogenousOnly), table)
  {
    var cands, kept := mine(corpus, table), Witnesses(corpus, exogenousOnly);
    var i := FirstAdmissible(cands, kept, table);
    if i == |cands| then table else Grown(table[cands[i].name := cands[i]], corpus, exogenousOnly, mine)
  }

  /** `_greedy_grow`. The corpus length is what makes it stop. */
  method GreedyGrow(table: Table, corpus: seq<Reading>, exogenousOnly: bool, mine: Miner, memo: PricingMemo)
      returns (table': Table)
    requires memo.Valid() && ValidTable(table) && ProposesBodies(mine)
    modifies memo
    ensures memo.Valid() && table' == Grown(table, corpus, exogenousOnly, mine)
  {
    hide CorpusDl, Uses, StatsOf, Witnesses, PricingMemo.Valid;
    table' := table;
    ghost var kept := Witnesses(corpus, exogenousOnly);
    while true
      invariant memo.Valid() && ValidTable(table')
      invariant Grown(table', corpus, exogenousOnly, mine) == Grown(table, corpus, exogenousOnly, mine)
      decreases CorpusDl(kept, table')
    {
      var cands := mine(corpus, table');
      var i := ScanCandidates(cands, corpus, table', exogenousOnly, memo);
      if i == |cands| {
        return;
      }
      table' := table'[cands[i].name := cands[i]];
    }
  }

  /** The scan for the first candidate to admit. */
  method ScanCandidates(cands: seq<Macro>, corpus: seq<Reading>, table: Table, exogenousOnly: bool, memo: PricingMemo)
      returns (i: nat)
    requires memo.Valid() && ValidTable(table) && forall m | m in cands :: m.body != []
    modifies memo
    ensures memo.Valid() && i == FirstAdmissible(cands, Witnesses(corpus, exogenousOnly), table) <= |cands|
  {
    hide Admissible, CorpusDl, ValidTable, PricingMemo.Valid, Witnesses;
    i := 0;
    ghost var first := FirstAdmissible(cands, Witnesses(corpus, exogenousOnly), table);
    while i < |cands|
      invariant memo.Valid() && i <= first <= |cands|
    {
      if cands[i].name !in table {
        var admit := AdmissionDecision(corpus, cands[i], table, exogenousOnly, memo);
        if admit {
          return;
        }
      }
      i := i + 1;
    }
  }

  /** Every admission shortens the corpus, old macros stay, and in the end no candidate the miner
      still offers clears the gate. */
  lemma {:induction false} GrowthPays(table: Table, corpus: seq<Reading>, exogenousOnly: bool, mine: Miner)
    requires ValidTable(table) && ProposesBodies(mine)
    ensures var table' := Grown(table, corpus, exogenousOnly, mine);
      var kept := Witnesses(corpus, exogenousOnly);
      && table.Keys <= table'.Keys && (forall n | n in table :: table'[n] == table[n])
      && CorpusDl(kept, table') + |table'.Keys - table.Keys| <= CorpusDl(kept, table)
      && forall m | m in mine(corpus, table') :: m.name in table' || !Admissible(kept, m, table')
    decreases CorpusDl(Witnesses(corpus, exogenousOnly), table)
  {
    hide CorpusDl, Uses, Witnesses, ProposesBodies;
    var cands, kept := mine(corpus, table), Witnesses(corpus, exogenousOnly);
    var i := FirstAdmissible(cands, kept, table);
    if i < |cands| {
      var next := table[cands[i].name := cands[i]];
      assert CorpusDl(kept, next) < CorpusDl(kept, table);
      assert cands[i].name !in table;
      assert Grown(table, corpus, exogenousOnly, mine) == Grown(next, corpus, exogenousOnly, mine);
      hide Admissible, ValidTable, FirstAdmissible, Grown;
      GrowthPays(next, corpus, exogenousOnly, mine);
      OneMore(table, cands[i], Grown(next, corpus, exogenousOnly, mine));
    } else {
      assert table.Keys - table.Keys == {};
      forall m | m in cands ensures m.name in table || !Admissible(kept, m, table) {
        var j :| 0 <= j < |cands| && cands[j] == m;
      }
    }
  }

  lemma OneMore(table: Table, m: Macro, table': Table)
    requires m.name !in table
    requires var next := table[m.name := m]; next.Keys <= table'.Keys && forall n | n in next :: table'[n] == next[n]
    ensures table.Keys <= table'.Keys && forall n | n in table :: table'[n] == table[n]
    ensures |table'.Keys - table.Keys| == |table'.Keys - table[m.name := m].Keys| + 1
  {
    var next := table[m.name := m];
    assert table'.Keys - table.Keys == (table'.Keys - next.Keys) + {m.name};
    forall n | n in table ensures table'[n] == table[n] {
      assert n in next;
    }
  }

  // ---------------------------------------------------------------- what the gate lets through

  /** Two readings have a window that the macro collapses. */
  ghost predicate UsedTwice(readings: seq<Reading>, table: Table, name: string)
    requires ValidTable(table)
  {
    exists i, j :: 0 <= i < j < |readings|
      && name in StatsOf(readings[i], table).used && name in StatsOf(readings[j], table).used
  }

  lemma {:induction false} UsesTwo(readings: seq<Reading>, table: Table, name: string)
    requires ValidTable(table)
    ensures Uses(readings, table, name) >= 1 <==> exists i :: 0 <= i < |readings| && name in StatsOf(readings[i], table).used
    ensures Uses(readings, table, name) >= 2 <==> UsedTwice(readings, table, name)
  {
    hide StatsOf, ValidTable;
    if readings != [] {
      var n := |readings| - 1;
      var init := readings[..n];
      UsesTwo(init, table, name);
      assert forall i | 0 <= i < n :: init[i] == readings[i];
      if i :| 0 <= i < |init| && name in StatsOf(init[i], table).used {
        assert name in StatsOf(readings[i], table).used;
      }
      if i, j :| 0 <= i < j < |init| && name in StatsOf(init[i], table).used && name in StatsOf(init[j], table).used {
        assert name in StatsOf(readings[i], table).used && name in StatsOf(readings[j], table).used;
      }
      if i, j :| 0 <= i < j < |readings| && name in StatsOf(readings[i], table).used && name in StatsOf(readings[j], table).used {
        assert name in StatsOf(init[i], table).used;
        assert j < n ==> name in StatsOf(init[j], table).used;
      }
    }
  }

  /** THE GATE, EXACTLY: with the macro the corpus of the witnesses is strictly shorter, and in two of them
      the macro collapses a window. */
  lemma AdmittedExactly(readings: seq<Reading>, m: Macro, table: Table)
    requires ValidTable(table) && m.body != []
    ensures Admissible(readings, m, table)
      <==> CorpusDl(readings, table[m.name := m]) < CorpusDl(readings, table) && UsedTwice(readings, table[m.name := m], m.name)
  {
    UsesTwo(readings, table[m.name := m], m.name);
    hide CorpusDl, Uses, UsedTwice;
  }

  /** The witnesses: all readings, or those of exogenous origin. */
  lemma WitnessesAre(readings: seq<Reading>, r: Reading)
    ensures Witnesses(readings, false) == readings
    ensures r in Witnesses(readings, true) <==> r in readings && r.origin == "exogenous"
  {
    AllWitness(readings);
    ExogenousWitness(readings, r);
    hide Witnesses;
  }

  lemma {:induction false} AllWitness(readings: seq<Reading>)
    ensures Witnesses(readings, false) == readings
  {
    if readings != [] {
      var n := |readings| - 1;
      assert readings == readings[..n] + [readings[n]];
      AllWitness(readings[..n]);
    }
  }

  lemma {:induction false} ExogenousWitness(readings: seq<Reading>, r: Reading)
    ensures r in Witnesses(readings, true) <==> r in readings && r.origin == "exogenous"
  {
    if readings != [] {
      var init, last := readings[..|readings| - 1], readings[|readings| - 1];
      assert readings == init + [last];
      ExogenousWitness(init, r);
    }
  }

  // ---------------------------------------------------------------- collecting

  ghost function Less(table: Table, n: string): (t: Table)
    requires ValidTable(table)
    ensures ValidTable(t)
  {
    table - {n}
  }

  /** The table when the first `k` names have been retired. */
  ghost function Behind(table: Table, retired: seq<string>, k: nat): (t: Table)
    requires ValidTable(table) && k <= |retired|
    ensures ValidTable(t)
  {
    table - (set n | n in retired[..k])
  }

  /** Removing `n` does not lengthen the corpus. */
  ghost predicate Idle(kept: seq<Reading>, table: Table, n: string)
    requires ValidTable(table)
  {
    n in table && CorpusDl(kept, Less(table, n)) <= CorpusDl(kept, table)
  }

  ghost predicate FirstIdle(kept: seq<Reading>, table: Table, n: string)
    requires ValidTable(table)
  {
    Idle(kept, table, n) && forall m | Idle(kept, table, m) :: Le(n, m)
  }

  /** Every name was the first idle one when its turn came. */
  ghost predicate IdleInTurn(kept: seq<Reading>, table: Table, retired: seq<string>)
    requires ValidTable(table)
  {
    forall k: nat | k < |retired| :: FirstIdle(kept, Behind(table, retired, k), retired[k])
  }

  lemma IdleNext(kept: seq<Reading>, table: Table, retired: seq<string>, table': Table, n: string)
    requires ValidTable(table) && IdleInTurn(kept, table, retired)
    requires table' == table - (set m | m in retired) && ValidTable(table') && FirstIdle(kept, table', n)
    ensures IdleInTurn(kept, table, retired + [n])
  {
    hide FirstIdle, ValidTable, Behind;
    BehindMore(table, retired, n);
    forall k: nat | k < |retired| + 1 ensures FirstIdle(kept, Behind(table, retired + [n], k), (retired + [n])[k]) {
      assert k < |retired| ==> FirstIdle(kept, Behind(table, retired, k), retired[k]);
    }
  }

  /** Removing `n` shortens the corpus; with `stranded`, and fewer than two readings use it. */
  ghost predicate Costly(kept: seq<Reading>, table: Table, n: string, stranded: bool)
    requires ValidTable(table)
  {
    && n in table && CorpusDl(kept, Less(table, n)) < CorpusDl(kept, table)
    && (stranded ==> !UsedTwice(kept, table, n))
  }

  ghost predicate FirstCostly(kept: seq<Reading>, table: Table, n: string, stranded: bool)
    requires ValidTable(table)
  {
    Costly(kept, table, n, stranded) && forall m | Costly(kept, table, m, stranded) :: Le(n, m)
  }

  /** The next to go: the first stranded macro whose removal pays, and where there is none the first macro
      at all whose removal pays. */
  ghost predicate NextVictim(kept: seq<Reading>, table: Table, n: string)
    requires ValidTable(table)
  {
    if exists m :: Costly(kept, table, m, true) then FirstCostly(kept, table, n, true)
    else FirstCostly(kept, table, n, false)
  }

  ghost predicate VictimsInTurn(kept: seq<Reading>, table: Table, retired: seq<string>)
    requires ValidTable(table)
  {
    forall k: nat | k < |retired| :: NextVictim(kept, Behind(table, retired, k), retired[k])
  }

  lemma VictimsNext(kept: seq<Reading>, table: Table, retired: seq<string>, table': Table, n: string)
    requires ValidTable(table) && VictimsInTurn(kept, table, retired)
    requires table' == table - (set m | m in retired) && ValidTable(table') && NextVictim(kept, table', n)
    ensures VictimsInTurn(kept, table, retired + [n])
  {
    hide NextVictim, ValidTable, Behind;
    BehindMore(table, retired, n);
    forall k: nat | k < |retired| + 1 ensures NextVictim(kept, Behind(table, retired + [n], k), (retired + [n])[k]) {
      assert k < |retired| ==> NextVictim(kept, Behind(table, retired, k), retired[k]);
    }
  }

  /** `gc_table`: retire the first macro, by name, whose removal does not lengthen the corpus, until none is
      left. The corpus never gets longer, and afterwards removing any remaining macro strictly lengthens it. */
  method GcTable(table: Table, readings: seq<Reading>, exogenousOnly: bool, memo: PricingMemo)
      returns (table': Table, retired: seq<string>)
    requires memo.Valid() && ValidTable(table)
    modifies memo
    ensures memo.Valid() && ValidTable(table')
    ensures table' == table - (set n | n in retired) && |retired| + |table'.Keys| == |table.Keys|
    ensures IdleInTurn(Witnesses(readings, exogenousOnly), table, retired)
    ensures CorpusDl(Witnesses(readings, exogenousOnly), table') <= CorpusDl(Witnesses(readings, exogenousOnly), table)
    ensures forall n | n in table' ::
        CorpusDl(Witnesses(readings, exogenousOnly), table') < CorpusDl(Witnesses(readings, exogenousOnly), table' - {n})
  {
    NoneRetiredYet(Witnesses(readings, exogenousOnly), table);
    hide CorpusDl, StatsOf, Witnesses, PricingMemo.Valid, ValidTable, FirstIdle, IdleInTurn;
    var kept := Witnesses(readings, exogenousOnly);
    table', retired := table, [];
    assert table == table - (set n | n in []);
    while true
      invariant memo.Valid() && ValidTable(table')
      invariant table' == table - (set n | n in retired) && |retired| + |table'.Keys| == |table.Keys|
      invariant CorpusDl(kept, table') <= CorpusDl(kept, table)
      invariant IdleInTurn(kept, table, retired)
      decreases |table'.Keys|
    {
      var total, _ := memo.Corpus(kept, table', "");
      var names := SortedWords(table'.Keys, false);
      var idle := FindIdle(names, table', kept, total, memo);
      if idle.None? {
        return;
      }
      RetireOne(table, table', retired, idle.value);
      IdleNext(kept, table, retired, table', idle.value);
      table', retired := table' - {idle.value}, retired + [idle.value];
    }
  }

  lemma NoneRetiredYet(kept: seq<Reading>, table: Table)
    requires ValidTable(table)
    ensures IdleInTurn(kept, table, []) && VictimsInTurn(kept, table, [])
  {
  }

  lemma BehindMore(table: Table, retired: seq<string>, n: string)
    requires ValidTable(table)
    ensures forall k: nat | k <= |retired| :: Behind(table, retired + [n], k) == Behind(table, retired, k)
    ensures Behind(table, retired, |retired|) == table - (set m | m in retired)
  {
    hide ValidTable;
    assert retired[..|retired|] == retired;
    forall k: nat | k <= |retired| ensures Behind(table, retired + [n], k) == Behind(table, retired, k) {
      assert (retired + [n])[..k] == retired[..k];
    }
  }

  /** The first name, in order, whose removal does not lengthen the corpus. */
  method FindIdle(names: seq<string>, table: Table, kept: seq<Reading>, total: nat, memo: PricingMemo)
      returns (idle: Option<string>)
    requires memo.Valid() && ValidTable(table) && total == CorpusDl(kept, table)
    requires Sorted(names, Le) && forall n :: n in names <==> n in table
    modifies memo
    ensures memo.Valid()
    ensures idle.Some? ==> FirstIdle(kept, table, idle.value)
    ensures idle.Some? ==> idle.value in table && ValidTable(table - {idle.value})
    ensures idle.Some? ==> CorpusDl(kept, table - {idle.value}) <= total
    ensures idle.None? ==> forall n | n in table :: ValidTable(table - {n}) && total < CorpusDl(kept, table - {n})
  {
    hide CorpusDl, StatsOf, PricingMemo.Valid, ValidTable, Idle, FirstIdle, Sorted;
    for i := 0 to |names|
      invariant memo.Valid()
      invariant forall j | 0 <= j < i :: !Idle(kept, table, names[j])
    {
      IdleIs(kept, table, names[i]);
      var trial, _ := memo.Corpus(kept, table - {names[i]}, "");
      if trial <= total {
        FoundIdle(kept, table, names, i);
        return Some(names[i]);
      }
    }
    forall n | n in table ensures ValidTable(table - {n}) && total < CorpusDl(kept, table - {n}) {
      IdleIs(kept, table, n);
    }
    return None;
  }

  lemma IdleIs(kept: seq<Reading>, table: Table, n: string)
    requires ValidTable(table)
    ensures ValidTable(table - {n})
    ensures Idle(kept, table, n) <==> n in table && CorpusDl(kept, table - {n}) <= CorpusDl(kept, table)
  {
    hide CorpusDl;
    assert Less(table, n) == table - {n};
  }

  lemma FoundIdle(kept: seq<Reading>, table: Table, names: seq<string>, i: nat)
    requires ValidTable(table) && Sorted(names, Le) && (forall n :: n in names <==> n in table) && i < |names|
    requires (forall j | 0 <= j < i :: !Idle(kept, table, names[j])) && Idle(kept, table, names[i])
    ensures FirstIdle(kept, table, names[i])
  {
    hide CorpusDl, ValidTable;
    forall m | Idle(kept, table, m) ensures Le(names[i], m) {
      FirstInOrder(names, i, m);
    }
  }

  /** A name that is not among the first `i` is behind the i-th. */
  lemma FirstInOrder(names: seq<string>, i: nat, m: string)
    requires Sorted(names, Le) && i < |names| && m in names
    ensures m in names[..i] || Le(names[i], m)
  {
    var j :| 0 <= j < |names| && names[j] == m;
    if j < i {
      assert names[..i][j] == m;
    }
    LeTotal(m, m);
  }

  lemma RetireOne(table: Table, table': Table, retired: seq<string>, n: string)
    requires table' == table - (set r | r in retired) && n in table'
    ensures table' - {n} == table - (set r | r in retired + [n])
    ensures |(table' - {n}).Keys| == |table'.Keys| - 1
  {
    assert (set r | r in retired + [n]) == (set r | r in retired) + {n};
    assert (table' - {n}).Keys == table'.Keys - {n};
  }

  /** The first name, in order, whose removal strictly shortens the corpus; with `stranded`, only
      among macros used by fewer than two readings. */
  method FindVictim(names: seq<string>, table: Table, kept: seq<Reading>, stranded: bool, total: nat, memo: PricingMemo)
      returns (victim: Option<string>)
    requires memo.Valid() && ValidTable(table) && total == CorpusDl(kept, table)
    requires Sorted(names, Le) && forall n :: n in names <==> n in table
    modifies memo
    ensures memo.Valid()
    ensures victim.Some? ==> FirstCostly(kept, table, victim.value, stranded)
    ensures victim.None? ==> forall n :: !Costly(kept, table, n, stranded)
  {
    hide CorpusDl, StatsOf, PricingMemo.Valid, UsedTwice, Uses, ValidTable, Costly, FirstCostly, Sorted;
    for i := 0 to |names|
      invariant memo.Valid()
      invariant forall j | 0 <= j < i :: !Costly(kept, table, names[j], stranded)
    {
      var _, uses := memo.Corpus(kept, table, names[i]);
      CostlyIs(kept, table, names[i], stranded);
      if !stranded || uses < 2 {
        var trial, _ := memo.Corpus(kept, table - {names[i]}, "");
        if trial < total {
          FoundCostly(kept, table, names, i, stranded);
          return Some(names[i]);
        }
      }
    }
    forall n ensures !Costly(kept, table, n, stranded) {
      CostlyIs(kept, table, n, stranded);
    }
    return None;
  }

  lemma CostlyIs(kept: seq<Reading>, table: Table, n: string, stranded: bool)
    requires ValidTable(table)
    ensures ValidTable(table - {n})
    ensures Costly(kept, table, n, stranded) <==>
      n in table && CorpusDl(kept, table - {n}) < CorpusDl(kept, table) && (stranded ==> Uses(kept, table, n) < 2)
  {
    UsesTwo(kept, table, n);
    hide CorpusDl, Uses, UsedTwice;
    assert Less(table, n) == table - {n};
  }

  lemma FoundCostly(kept: seq<Reading>, table: Table, names: seq<string>, i: nat, stranded: bool)
    requires ValidTable(table) && Sorted(names, Le) && (forall n :: n in names <==> n in table) && i < |names|
    requires (forall j | 0 <= j < i :: !Costly(kept, table, names[j], stranded)) && Costly(kept, table, names[i], stranded)
    ensures FirstCostly(kept, table, names[i], stranded)
  {
    hide CorpusDl, ValidTable, UsedTwice;
    forall m | Costly(kept, table, m, stranded) ensures Le(names[i], m) {
      FirstInOrder(names, i, m);
    }
  }

  /** `gc_macros`: stranded macros first, then any macro whose removal strictly shortens the corpus.
      Every retirement shortens it, and in the end no single removal does. */
  method GcMacros(table: Table, readings: seq<Reading>, exogenousOnly: bool, memo: PricingMemo)
      returns (table': Table, retired: seq<string>)
    requires memo.Valid() && ValidTable(table)
    modifies memo
    ensures memo.Valid() && ValidTable(table') && table' == table - (set n | n in retired)
    ensures VictimsInTurn(Witnesses(readings, exogenousOnly), table, retired)
    ensures CorpusDl(Witnesses(readings, exogenousOnly), table') + |retired|
         <= CorpusDl(Witnesses(readings, exogenousOnly), table)
    ensures forall n | n in table' ::
        CorpusDl(Witnesses(readings, exogenousOnly), table') <= CorpusDl(Witnesses(readings, exogenousOnly), table' - {n})
  {
    NoneRetiredYet(Witnesses(readings, exogenousOnly), table);
    hide CorpusDl, Uses, StatsOf, Witnesses, PricingMemo.Valid, ValidTable, NextVictim, Costly, FirstCostly, VictimsInTurn;
    var kept := Witnesses(readings, exogenousOnly);
    table', retired := table, [];
    assert table == table - (set n | n in []);
    while true
      invariant memo.Valid() && ValidTable(table')
      invariant table' == table - (set n | n in retired)
      invariant CorpusDl(kept, table') + |retired| <= CorpusDl(kept, table)
      invariant VictimsInTurn(kept, table, retired)
      decreases |table'.Keys|
    {
      var total, _ := memo.Corpus(kept, table', "");
      var names := SortedWords(table'.Keys, false);
      var victim := FindVictim(names, table', kept, true, total, memo);
      if victim.None? {
        victim := FindVictim(names, table', kept, false, total, memo);
      }
      if victim.None? {
        NoneCostly(kept, table');
        return;
      }
      VictimPays(kept, table', victim.value);
      RetireOne(table, table', retired, victim.value);
      VictimsNext(kept, table, retired, table', victim.value);
      table', retired := table' - {victim.value}, retired + [victim.value];
    }
  }

  lemma NoneCostly(kept: seq<Reading>, table: Table)
    requires ValidTable(table) && forall n :: !Costly(kept, table, n, false)
    ensures forall n | n in table :: ValidTable(table - {n}) && CorpusDl(kept, table) <= CorpusDl(kept, table - {n})
  {
    hide CorpusDl;
    forall n | n in table ensures ValidTable(table - {n}) && CorpusDl(kept, table) <= CorpusDl(kept, table - {n}) {
      assert !Costly(kept, table, n, false);
    }
  }

  lemma VictimPays(kept: seq<Reading>, table: Table, n: string)
    requires ValidTable(table)
    requires FirstCostly(kept, table, n, true) || (FirstCostly(kept, table, n, false) && forall m :: !Costly(kept, table, m, true))
    ensures n in table && ValidTable(table - {n}) && CorpusDl(kept, table - {n}) < CorpusDl(kept, table)
    ensures NextVictim(kept, table, n)
  {
    hide CorpusDl, UsedTwice;
    if FirstCostly(kept, table, n, true) {
      assert Costly(kept, table, n, true);
    }
  }
}
