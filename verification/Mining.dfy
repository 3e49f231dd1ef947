/** The clustering and admission part of `mine` in `buildloop/recurrence.py`. */
module Mining {
  import opened Order
  import opened Templates
  import opened Rewriting
  import opened Expansion
  import opened Pricing
  import opened AntiUnification
  import opened MinedBodies
  import opened Growth
  import opened Wrappers

  /** The cluster key: the window length and a canonical serialization of the rest. */
  datatype Key = Key(width: nat, rest: string)

  /** A demand window of a reading: its key and its logical forms. */
  datatype Demand = Demand(key: Key, lfs: seq<Json>)

  /** What `mine` takes from outside this model: windowing, the concreteness and the slot filter, naming. */
  datatype Rules = Rules(
    windows: Reading -> seq<Demand>, concrete: seq<Json> -> bool,
    slots: (seq<Json>, seq<string>, seq<seq<Json>>) -> bool, nameOf: seq<Json> -> string)

  /** Windows hold at least two statements, and the key tells how many. */
  ghost predicate ProperWindows(rules: Rules) {
    forall r, w | w in rules.windows(r) :: w.key.width == |w.lfs| >= 2
  }

  datatype Occurrence = Occurrence(reading: nat, lfs: seq<Json>)

  datatype Offered = Offered(candidate: Macro, saving: nat, uses: nat)

  // ---------------------------------------------------------------- clusters

  /** The occurrences of a key among the first `n` windows of reading `r`. */
  function InReading(ws: seq<Demand>, r: nat, key: Key): seq<Occurrence> {
    if ws == [] then []
    else
      var w := ws[|ws| - 1];
      InReading(ws[..|ws| - 1], r, key) + if w.key == key && OnlyForms(w.lfs) then [Occurrence(r, w.lfs)] else []
  }

  /** The cluster of a key: its occurrences in reading order. */
  function Cluster(rules: Rules, readings: seq<Reading>, key: Key): seq<Occurrence> {
    if readings == [] then []
    else
      var n := |readings| - 1;
      Cluster(rules, readings[..n], key) + InReading(rules.windows(readings[n]), n, key)
  }

  function At(clusters: map<Key, seq<Occurrence>>, key: Key): seq<Occurrence> {
    if key in clusters then clusters[key] else []
  }

  /** At this key, the clusters are those of all readings before `r` and of the windows `ws` of reading
      `r`; no cluster is empty. */
  ghost predicate ClusteredAt(rules: Rules, readings: seq<Reading>, ws: seq<Demand>, r: nat,
                              clusters: map<Key, seq<Occurrence>>, key: Key)
  {
    && (key in clusters ==> clusters[key] != [])
    && At(clusters, key) == Cluster(rules, readings, key) + InReading(ws, r, key)
  }

  ghost predicate Clustered(rules: Rules, readings: seq<Reading>, ws: seq<Demand>, r: nat,
                            clusters: map<Key, seq<Occurrence>>)
  {
    forall key :: ClusteredAt(rules, readings, ws, r, clusters, key)
  }

  function WithWindow(clusters: map<Key, seq<Occurrence>>, r: nat, w: Demand): map<Key, seq<Occurrence>> {
    if OnlyForms(w.lfs) then clusters[w.key := At(clusters, w.key) + [Occurrence(r, w.lfs)]] else clusters
  }

  lemma OneMoreWindow(ws: seq<Demand>, r: nat, w: Demand, key: Key)
    ensures InReading(ws + [w], r, key)
      == InReading(ws, r, key) + if w.key == key && OnlyForms(w.lfs) then [Occurrence(r, w.lfs)] else []
  {
    hide OnlyForms;
    assert (ws + [w])[..|ws|] == ws;
  }

  lemma AddWindowAt(rules: Rules, readings: seq<Reading>, ws: seq<Demand>, r: nat, w: Demand,
                    clusters: map<Key, seq<Occurrence>>, key: Key)
    requires ClusteredAt(rules, readings, ws, r, clusters, key)
    ensures ClusteredAt(rules, readings, ws + [w], r, WithWindow(clusters, r, w), key)
  {
    hide OnlyForms, Cluster, InReading;
    OneMoreWindow(ws, r, w, key);
    var before, here := Cluster(rules, readings, key), InReading(ws, r, key);
    assert before + (here + [Occurrence(r, w.lfs)]) == (before + here) + [Occurrence(r, w.lfs)];
    assert here + [] == here;
  }

  lemma AddWindow(rules: Rules, readings: seq<Reading>, ws: seq<Demand>, r: nat, w: Demand,
                  clusters: map<Key, seq<Occurrence>>)
    requires Clustered(rules, readings, ws, r, clusters)
    ensures Clustered(rules, readings, ws + [w], r, WithWindow(clusters, r, w))
  {
    hide ClusteredAt, WithWindow;
    forall key ensures ClusteredAt(rules, readings, ws + [w], r, WithWindow(clusters, r, w), key) {
      assert ClusteredAt(rules, readings, ws, r, clusters, key);
      AddWindowAt(rules, readings, ws, r, w, clusters, key);
    }
  }

  lemma ClustersFound(rules: Rules, readings: seq<Reading>, r: nat, clusters: map<Key, seq<Occurrence>>)
    requires Clustered(rules, readings, [], r, clusters)
    ensures forall key :: key in clusters <==> Cluster(rules, readings, key) != []
    ensures forall key | key in clusters :: clusters[key] == Cluster(rules, readings, key)
  {
    hide Cluster;
    forall key
      ensures key in clusters <==> Cluster(rules, readings, key) != []
      ensures key in clusters ==> clusters[key] == Cluster(rules, readings, key)
    {
      assert ClusteredAt(rules, readings, [], r, clusters, key);
      assert Cluster(rules, readings, key) + [] == Cluster(rules, readings, key);
    }
  }

  lemma NextReading(rules: Rules, readings: seq<Reading>, r: Reading, clusters: map<Key, seq<Occurrence>>)
    requires Clustered(rules, readings, rules.windows(r), |readings|, clusters)
    ensures Clustered(rules, readings + [r], [], |readings| + 1, clusters)
  {
    var all, n := readings + [r], |readings| + 1;
    assert all[..|readings|] == readings;
    forall key ensures ClusteredAt(rules, all, [], n, clusters, key) {
      assert ClusteredAt(rules, readings, rules.windows(r), |readings|, clusters, key);
      assert Cluster(rules, all, key) + [] == Cluster(rules, all, key);
    }
  }

  method Clusters(rules: Rules, readings: seq<Reading>) returns (clusters: map<Key, seq<Occurrence>>)
    ensures forall key :: key in clusters <==> Cluster(rules, readings, key) != []
    ensures forall key | key in clusters :: clusters[key] == Cluster(rules, readings, key)
  {
    clusters := map[];
    assert Clustered(rules, readings[..0], [], 0, clusters);
    hide Clustered;
    for r := 0 to |readings|
      invariant Clustered(rules, readings[..r], [], r, clusters)
    {
      clusters := ClusterReading(rules, readings[..r], readings[r], clusters);
      assert readings[..r + 1] == readings[..r] + [readings[r]];
    }
    assert readings[..|readings|] == readings;
    ClustersFound(rules, readings, |readings|, clusters);
  }

  method ClusterReading(rules: Rules, before: seq<Reading>, r: Reading, clusters0: map<Key, seq<Occurrence>>)
      returns (clusters: map<Key, seq<Occurrence>>)
    requires Clustered(rules, before, [], |before|, clusters0)
    ensures Clustered(rules, before + [r], [], |before| + 1, clusters)
  {
    hide Clustered, OnlyForms;
    var ws := rules.windows(r);
    clusters := clusters0;
    for i := 0 to |ws|
      invariant Clustered(rules, before, ws[..i], |before|, clusters)
    {
      AddWindow(rules, before, ws[..i], |before|, ws[i], clusters);
      assert ws[..i + 1] == ws[..i] + [ws[i]];
      if OnlyForms(ws[i].lfs) {
        clusters := clusters[ws[i].key := At(clusters, ws[i].key) + [Occurrence(|before|, ws[i].lfs)]];
      }
    }
    assert ws[..|ws|] == ws;
    NextReading(rules, before, r, clusters);
  }

  lemma {:induction false} InReadingHolds(ws: seq<Demand>, r: nat, key: Key, o: Occurrence)
    ensures o in InReading(ws, r, key)
      <==> o.reading == r && exists w :: w in ws && w.key == key && w.lfs == o.lfs && OnlyForms(w.lfs)
  {
    hide OnlyForms;
    if ws != [] {
      var init, last := ws[..|ws| - 1], ws[|ws| - 1];
      assert ws == init + [last];
      InReadingHolds(init, r, key, o);
    }
  }

  ghost predicate InWindows(rules: Rules, reading: Reading, key: Key, o: Occurrence) {
    exists w :: w in rules.windows(reading) && w.key == key && w.lfs == o.lfs && forall lf | lf in w.lfs :: lf.Obj?
  }

  /** WHAT A CLUSTER HOLDS: the windows of its key, of every reading, whose logical forms are objects. */
  lemma {:induction false} ClusterHolds(rules: Rules, readings: seq<Reading>, key: Key, o: Occurrence)
    ensures o in Cluster(rules, readings, key) <==> o.reading < |readings| && InWindows(rules, readings[o.reading], key, o)
  {
    hide InReading;
    if readings != [] {
      var n := |readings| - 1;
      ClusterHolds(rules, readings[..n], key, o);
      InReadingHolds(rules.windows(readings[n]), n, key, o);
    }
  }

  // ---------------------------------------------------------------- candidates

  function LfsOf(occ: seq<Occurrence>): seq<seq<Json>> {
    seq(|occ|, i requires 0 <= i < |occ| => occ[i].lfs)
  }

  /** At least two distinct readings. */
  ghost predicate TwoReadings(occ: seq<Occurrence>) {
    exists i, j :: 0 <= i < j < |occ| && occ[i].reading != occ[j].reading
  }

  method HasTwoReadings(occ: seq<Occurrence>) returns (two: bool)
    ensures two == TwoReadings(occ)
  {
    two := false;
    for i := 0 to |occ|
      invariant !two ==> forall k | 0 <= k < i :: occ[k].reading == occ[0].reading
      invariant two ==> TwoReadings(occ)
    {
      if occ[i].reading != occ[0].reading {
        two := true;
      }
    }
  }

  lemma {:induction false} ReadingWidths(rules: Rules, r: Reading, ws: seq<Demand>, n: nat, key: Key)
    requires ProperWindows(rules) && (forall w | w in ws :: w in rules.windows(r))
    ensures forall o | o in InReading(ws, n, key) :: |o.lfs| == key.width >= 2 && OnlyForms(o.lfs)
  {
    hide OnlyForms;
    if ws != [] {
      ReadingWidths(rules, r, ws[..|ws| - 1], n, key);
      assert ws[|ws| - 1] in ws;
    }
  }

  lemma {:induction false} ClusterWidths(rules: Rules, readings: seq<Reading>, key: Key)
    requires ProperWindows(rules)
    ensures forall o | o in Cluster(rules, readings, key) :: |o.lfs| == key.width >= 2 && OnlyForms(o.lfs)
  {
    hide OnlyForms, ProperWindows;
    if readings != [] {
      var n := |readings| - 1;
      ClusterWidths(rules, readings[..n], key);
      ReadingWidths(rules, readings[n], rules.windows(readings[n]), n, key);
    }
  }

  lemma ClusterOccurrences(rules: Rules, readings: seq<Reading>, key: Key)
    requires ProperWindows(rules) && Cluster(rules, readings, key) != []
    ensures Occurrences(LfsOf(Cluster(rules, readings, key))) && |LfsOf(Cluster(rules, readings, key))[0]| >= 2
  {
    hide OnlyForms, ProperWindows, Cluster;
    ClusterWidths(rules, readings, key);
    var occ := Cluster(rules, readings, key);
    forall lfs | lfs in LfsOf(occ) ensures |lfs| == key.width {
      var i :| 0 <= i < |occ| && LfsOf(occ)[i] == lfs;
      assert occ[i] in occ;
    }
    assert occ[0] in occ;
  }

  lemma ClusterForms(rules: Rules, readings: seq<Reading>, key: Key)
    requires ProperWindows(rules)
    ensures AllForms(LfsOf(Cluster(rules, readings, key)))
  {
    hide OnlyForms, ProperWindows, Cluster;
    ClusterWidths(rules, readings, key);
    var occ := Cluster(rules, readings, key);
    forall n | 0 <= n < |occ| ensures OnlyForms(LfsOf(occ)[n]) {
      assert occ[n] in occ;
    }
  }

  /** The windows of a cluster. */
  ghost function WindowsAt(rules: Rules, readings: seq<Reading>, key: Key): (windows: seq<seq<Json>>)
    requires ProperWindows(rules) && Cluster(rules, readings, key) != []
    ensures Occurrences(windows)
  {
    ClusterOccurrences(rules, readings, key);
    LfsOf(Cluster(rules, readings, key))
  }

  /** The one macro that can be mined from the windows. */
  ghost function MacroOf(rules: Rules, windows: seq<seq<Json>>): Macro
    requires Occurrences(windows)
  {
    Macro(rules.nameOf(BodyOf(windows)), SortedSet(FirstNames(|WindowsDiffering(windows)|)), BodyOf(windows))
  }

  /** The filters let the macro through, and it matches all the windows. */
  ghost predicate Accepted(rules: Rules, windows: seq<seq<Json>>)
    requires Occurrences(windows)
  {
    var m := MacroOf(rules, windows);
    rules.concrete(m.body) && rules.slots(m.body, m.params, windows) && NoCollision(windows)
  }

  /** WHICH CLUSTERS GIVE A CANDIDATE: those with two readings whose macro is accepted and pays. */
  ghost predicate Passes(rules: Rules, readings: seq<Reading>, table: Table, key: Key)
    requires ValidTable(table) && ProperWindows(rules)
  {
    && TwoReadings(Cluster(rules, readings, key))
    && Accepted(rules, WindowsAt(rules, readings, key))
    && Admissible(readings, MacroOf(rules, WindowsAt(rules, readings, key)), table)
  }

  /** What a mined candidate is: the generalization of a cluster that passes, matching all its windows; it
      strictly shortens the corpus by its `saving` and is used by at least two readings. */
  ghost predicate Sound(rules: Rules, readings: seq<Reading>, table: Table, key: Key, c: Offered)
    requires ValidTable(table) && ProperWindows(rules)
  {
    && Passes(rules, readings, table, key)
    && c.candidate == MacroOf(rules, WindowsAt(rules, readings, key))
    && Verified(WindowsAt(rules, readings, key), c.candidate)
    && Priced(readings, table, c)
  }

  ghost predicate Verified(windows: seq<seq<Json>>, m: Macro)
    requires Occurrences(windows)
  {
    && (exists memo :: Mined(windows, m.body, m.params, memo))
    && (forall n | 0 <= n < |windows| :: Matches(Statements(windows[n]), 0, m))
  }

  ghost predicate Priced(readings: seq<Reading>, table: Table, c: Offered)
    requires ValidTable(table)
  {
    && Admissible(readings, c.candidate, table)
    && c.saving == CorpusDl(readings, table) - CorpusDl(readings, table[c.candidate.name := c.candidate])
    && c.uses == Uses(readings, table[c.candidate.name := c.candidate], c.candidate.name)
  }

  /** One cluster: generalize, filter, verify, price. */
  method Offer(rules: Rules, readings: seq<Reading>, table: Table, key: Key, occ: seq<Occurrence>, baseTotal: nat,
               memo: PricingMemo) returns (c: Option<Offered>)
    requires memo.Valid() && ValidTable(table) && ProperWindows(rules) && baseTotal == CorpusDl(readings, table)
    requires occ == Cluster(rules, readings, key) && occ != []
    modifies memo
    ensures memo.Valid()
    ensures c.Some? <==> Passes(rules, readings, table, key)
    ensures c.Some? ==> Sound(rules, readings, table, key, c.value)
  {
    hide PricingMemo.Valid, CorpusDl, Uses, Mined, Matches, ProperWindows, Cluster, TwoReadings, Priced, ValidTable,
      Admissible, NoCollision, AllForms, BodyOf, FirstNames, SortedSet, WindowsDiffering;
    ClusterOccurrences(rules, readings, key);
    var two := HasTwoReadings(occ);
    if !two {
      return None;
    }
    var windows := LfsOf(occ);
    var body, params;
    ghost var g;
    body, params, g := AntiunifyWindows(windows);
    var m := Macro(rules.nameOf(body), params, body);
    MinedUnique(windows, body, params, g);
    var ok := Verifies(m, windows);
    MinedMatches(windows, m, g);
    ClusterForms(rules, readings, key);
    if !rules.concrete(body) || !rules.slots(body, params, windows) || !ok {
      return None;
    }
    MinedBody(windows, body, params, g);
    c := Price(readings, table, m, baseTotal, memo);
  }

  lemma MinedBody(windows: seq<seq<Json>>, body: seq<Json>, params: seq<string>, memo: Memo)
    requires Occurrences(windows) && Mined(windows, body, params, memo) && |windows[0]| >= 2
    ensures body != []
  {
  }

  method Price(readings: seq<Reading>, table: Table, m: Macro, baseTotal: nat, memo: PricingMemo)
      returns (c: Option<Offered>)
    requires memo.Valid() && ValidTable(table) && m.body != [] && baseTotal == CorpusDl(readings, table)
    modifies memo
    ensures memo.Valid() && (c.None? <==> !Admissible(readings, m, table))
    ensures c.Some? ==> c.value.candidate == m && Priced(readings, table, c.value)
  {
    hide PricingMemo.Valid, CorpusDl, Uses;
    var after, uses := memo.Corpus(readings, table[m.name := m], m.name);
    if after < baseTotal && uses >= 2 {
      c := Some(Offered(m, baseTotal - after, uses));
    } else {
      c := None;
    }
  }

  // ---------------------------------------------------------------- the list

  /** Candidates are listed by falling saving, equal savings by name. */
  predicate BySaving(a: Offered, b: Offered) {
    a.saving > b.saving || (a.saving == b.saving && Le(a.candidate.name, b.candidate.name))
  }

  lemma BySavingIsPreorder()
    ensures TotalPreorder(BySaving)
  {
    forall a, b, c | BySaving(a, b) && BySaving(b, c) ensures BySaving(a, c) {
      if a.saving == b.saving == c.saving {
        LeTransitive(a.candidate.name, b.candidate.name, c.candidate.name);
      }
    }
    forall a, b ensures BySaving(a, b) || BySaving(b, a) {
      LeTotal(a.candidate.name, b.candidate.name);
    }
  }

  ghost predicate AllSound(rules: Rules, readings: seq<Reading>, table: Table, out: seq<Offered>)
    requires ValidTable(table) && ProperWindows(rules)
  {
    forall c | c in out :: exists key :: Sound(rules, readings, table, key, c)
  }

  /** Every cluster that passes has its candidate in the list. */
  ghost predicate NoneForgotten(rules: Rules, readings: seq<Reading>, table: Table, keys: set<Key>, out: seq<Offered>)
    requires ValidTable(table) && ProperWindows(rules)
  {
    forall key | key in keys && Passes(rules, readings, table, key) ::
      exists c :: c in out && Sound(rules, readings, table, key, c)
  }

  /** What `mine` returns for a corpus and a table: the candidates of exactly the clusters that pass, the
      best saving first. */
  ghost predicate ListFor(rules: Rules, corpus: seq<Reading>, table: Table, exogenousOnly: bool, out: seq<Offered>)
    requires ValidTable(table) && ProperWindows(rules)
  {
    var readings := Witnesses(corpus, exogenousOnly);
    && Sorted(out, BySaving) && AllSound(rules, readings, table, out)
    && forall key | Passes(rules, readings, table, key) ::
      exists c :: c in out && Sound(rules, readings, table, key, c)
  }

  /** As many candidates as clusters that pass. */
  ghost predicate OneEach(rules: Rules, corpus: seq<Reading>, table: Table, exogenousOnly: bool, out: seq<Offered>)
    requires ValidTable(table) && ProperWindows(rules)
  {
    exists passing: set<Key> :: |passing| == |out|
      && forall key :: key in passing <==> Passes(rules, Witnesses(corpus, exogenousOnly), table, key)
  }

  /** The length of the corpus with one more macro. */
  ghost function LengthWith(readings: seq<Reading>, table: Table, m: Macro): int
    requires ValidTable(table) && m.body != []
  {
    CorpusDl(readings, table[m.name := m])
  }

  lemma ListedArePriced(rules: Rules, corpus: seq<Reading>, table: Table, exogenousOnly: bool, out: seq<Offered>)
    requires ValidTable(table) && ProperWindows(rules) && ListFor(rules, corpus, table, exogenousOnly, out)
    ensures forall c | c in out :: c.candidate.body != [] && Priced(Witnesses(corpus, exogenousOnly), table, c)
  {
    hide ProperWindows, CorpusDl, Uses, Passes, MacroOf, WindowsAt, Verified, Cluster, Witnesses, ValidTable;
    forall c | c in out ensures c.candidate.body != [] && Priced(Witnesses(corpus, exogenousOnly), table, c) {
      var key :| Sound(rules, Witnesses(corpus, exogenousOnly), table, key, c);
    }
  }

  /** The candidate that makes the corpus shortest comes first, and of equal lengths the first name. */
  lemma ListedBestFirst(rules: Rules, corpus: seq<Reading>, table: Table, exogenousOnly: bool, out: seq<Offered>,
                        i: nat, j: nat)
    requires ValidTable(table) && ProperWindows(rules) && ListFor(rules, corpus, table, exogenousOnly, out)
    requires i < j < |out|
    ensures out[i].candidate.body != [] && out[j].candidate.body != []
    ensures var readings := Witnesses(corpus, exogenousOnly);
      var first := LengthWith(readings, table, out[i].candidate);
      var second := LengthWith(readings, table, out[j].candidate);
      && first <= second && (first == second ==> Le(out[i].candidate.name, out[j].candidate.name))
      && out[i].saving == CorpusDl(readings, table) - first
  {
    ListedArePriced(rules, corpus, table, exogenousOnly, out);
    hide ProperWindows, CorpusDl, Uses, Witnesses, ValidTable, AllSound, Sound, Passes, Admissible;
    var readings := Witnesses(corpus, exogenousOnly);
    assert BySaving(out[i], out[j]) && Priced(readings, table, out[i]) && Priced(readings, table, out[j]);
  }

  /** `mine`: one candidate for every cluster that passes and no others, the best saving first. */
  method Mine(rules: Rules, corpus: seq<Reading>, table: Table, exogenousOnly: bool, memo: PricingMemo)
      returns (out: seq<Offered>)
    requires memo.Valid() && ValidTable(table) && ProperWindows(rules)
    modifies memo
    ensures memo.Valid() && ListFor(rules, corpus, table, exogenousOnly, out)
    ensures OneEach(rules, corpus, table, exogenousOnly, out)
  {
    hide PricingMemo.Valid, CorpusDl, ProperWindows, Cluster, Passes, Sound, ValidTable, BySaving, AllSound,
      NoneForgotten, ListFor, PassingOf, OneEach;
    var readings := Witnesses(corpus, exogenousOnly);
    var clusters := Clusters(rules, readings);
    var baseTotal, _ := memo.Corpus(readings, table, "");
    var offers: seq<Offered> := [];
    var rest := clusters.Keys;
    NoOffers(rules, readings, table);
    assert clusters.Keys - rest == {};
    ghost var passing: set<Key> := {};
    while rest != {}
      invariant memo.Valid() && rest <= clusters.Keys
      invariant AllSound(rules, readings, table, offers)
      invariant NoneForgotten(rules, readings, table, clusters.Keys - rest, offers)
      invariant |passing| == |offers| && PassingOf(rules, readings, table, clusters.Keys - rest, passing)
    {
      var key :| key in rest;
      var c := Offer(rules, readings, table, key, clusters[key], baseTotal, memo);
      assert clusters.Keys - (rest - {key}) == clusters.Keys - rest + {key};
      PassingMore(rules, readings, table, clusters.Keys - rest, passing, key);
      if c.Some? {
        OneMoreOffer(rules, readings, table, clusters.Keys - rest, offers, key, c.value);
        offers, passing := offers + [c.value], passing + {key};
      } else {
        OneNotPassing(rules, readings, table, clusters.Keys - rest, offers, key);
      }
      rest := rest - {key};
    }
    BySavingIsPreorder();
    out := Sort(offers, BySaving);
    assert clusters.Keys - rest == clusters.Keys;
    assert |multiset(out)| == |multiset(offers)|;
    EachPassingOnce(rules, corpus, table, exogenousOnly, clusters.Keys, passing, out);
    ListDone(rules, corpus, table, exogenousOnly, clusters.Keys, offers, out);
  }

  ghost predicate PassingOf(rules: Rules, readings: seq<Reading>, table: Table, keys: set<Key>, passing: set<Key>)
    requires ValidTable(table) && ProperWindows(rules)
  {
    forall key :: key in passing <==> key in keys && Passes(rules, readings, table, key)
  }

  lemma PassingMore(rules: Rules, readings: seq<Reading>, table: Table, keys: set<Key>, passing: set<Key>, key: Key)
    requires ValidTable(table) && ProperWindows(rules) && PassingOf(rules, readings, table, keys, passing)
    ensures Passes(rules, readings, table, key) ==> PassingOf(rules, readings, table, keys + {key}, passing + {key})
    ensures !Passes(rules, readings, table, key) ==> PassingOf(rules, readings, table, keys + {key}, passing)
    ensures key !in keys ==> |passing + {key}| == |passing| + 1
  {
    hide ProperWindows, Passes, ValidTable;
  }

  lemma EachPassingOnce(rules: Rules, corpus: seq<Reading>, table: Table, exogenousOnly: bool, keys: set<Key>,
                        passing: set<Key>, out: seq<Offered>)
    requires ValidTable(table) && ProperWindows(rules) && |passing| == |out|
    requires var readings := Witnesses(corpus, exogenousOnly);
      && PassingOf(rules, readings, table, keys, passing)
      && forall key | Cluster(rules, readings, key) != [] :: key in keys
    ensures OneEach(rules, corpus, table, exogenousOnly, out)
  {
    hide ProperWindows, Passes, Cluster, ValidTable;
    var readings := Witnesses(corpus, exogenousOnly);
    forall key ensures key in passing <==> Passes(rules, readings, table, key) {
      if Passes(rules, readings, table, key) {
        PassingIsCluster(rules, readings, table, key);
      }
    }
  }

  lemma NoOffers(rules: Rules, readings: seq<Reading>, table: Table)
    requires ValidTable(table) && ProperWindows(rules)
    ensures AllSound(rules, readings, table, []) && NoneForgotten(rules, readings, table, {}, [])
    ensures PassingOf(rules, readings, table, {}, {})
  {
  }

  lemma OneNotPassing(rules: Rules, readings: seq<Reading>, table: Table, keys: set<Key>, offers: seq<Offered>, key: Key)
    requires ValidTable(table) && ProperWindows(rules)
    requires NoneForgotten(rules, readings, table, keys, offers) && !Passes(rules, readings, table, key)
    ensures NoneForgotten(rules, readings, table, keys + {key}, offers)
  {
    hide ProperWindows, Passes, Sound, ValidTable;
  }

  lemma PassingIsCluster(rules: Rules, readings: seq<Reading>, table: Table, key: Key)
    requires ValidTable(table) && ProperWindows(rules) && Passes(rules, readings, table, key)
    ensures Cluster(rules, readings, key) != []
  {
    hide ProperWindows, Accepted, Admissible, ValidTable, Cluster;
  }

  lemma ListDone(rules: Rules, corpus: seq<Reading>, table: Table, exogenousOnly: bool, keys: set<Key>,
                 offers: seq<Offered>, out: seq<Offered>)
    requires ValidTable(table) && ProperWindows(rules)
    requires multiset(out) == multiset(offers) && Sorted(out, BySaving)
    requires var readings := Witnesses(corpus, exogenousOnly);
      && AllSound(rules, readings, table, offers) && NoneForgotten(rules, readings, table, keys, offers)
      && forall key | Cluster(rules, readings, key) != [] :: key in keys
    ensures ListFor(rules, corpus, table, exogenousOnly, out)
  {
    hide ProperWindows, Passes, Sound, ValidTable, Cluster, BySaving;
    var readings := Witnesses(corpus, exogenousOnly);
    forall key | Passes(rules, readings, table, key)
      ensures exists c :: c in offers && Sound(rules, readings, table, key, c)
    {
      PassingIsCluster(rules, readings, table, key);
    }
    assert forall c :: c in out <==> c in multiset(out);
    assert forall c :: c in offers <==> c in multiset(offers);
  }

  lemma OneMoreOffer(rules: Rules, readings: seq<Reading>, table: Table, keys: set<Key>, offers: seq<Offered>,
                     key: Key, c: Offered)
    requires ValidTable(table) && ProperWindows(rules)
    requires AllSound(rules, readings, table, offers) && NoneForgotten(rules, readings, table, keys, offers)
    requires Sound(rules, readings, table, key, c)
    ensures AllSound(rules, readings, table, offers + [c])
    ensures NoneForgotten(rules, readings, table, keys + {key}, offers + [c])
  {
    hide ProperWindows, Passes, Sound, ValidTable;
    var more := offers + [c];
    assert c in more;
    forall k | k in keys + {key} && Passes(rules, readings, table, k)
      ensures exists d :: d in more && Sound(rules, readings, table, k, d)
    {
      if k != key {
        var d :| d in offers && Sound(rules, readings, table, k, d);
        assert d in more;
      }
    }
  }
}
