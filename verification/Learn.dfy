/** The L* loop of `buildloop/lstar.py`: counterexample analysis, progress, exactness. */
module Learn {
  import opened Automata
  import opened WMethod
  import opened Observations
  import opened Lstar
  import opened ConformanceTest
  import opened Wrappers

  datatype Status = Converged | MaxRounds | StalledUnprocessedCe

  /** The i-th probe of the analysis: the access word of the state reached by ce[..i], followed by
      the rest of ce. */
  ghost predicate ProbeIn(h: Mealy, access: seq<Word>, ce: Word, i: nat, words: set<Word>) {
    i <= |ce| && h.Reach(ce[..i]) < |access| && access[h.Reach(ce[..i])] + ce[i..] in words
  }

  method Probes(h: Mealy, access: seq<Word>, inc: Mealy, ce: Word) returns (probes: set<Word>)
    requires h.Total() && h.alphabet == inc.alphabet && h.Over(ce) && h.size == |access|
    requires forall s | s in access :: inc.Over(s)
    ensures forall i: nat | i <= |ce| :: ProbeIn(h, access, ce, i, probes)
    ensures forall w | w in probes :: inc.Over(w)
  {
    hide Mealy.Outputs, Mealy.After;
    probes := {};
    for i := 0 to |ce| + 1
      invariant forall j: nat | j < i :: ProbeIn(h, access, ce, j, probes)
      invariant forall w | w in probes :: inc.Over(w)
    {
      var q := h.RunState(ce[..i]);
      OverConcat(inc, access[q], ce[i..]);
      ghost var before := probes;
      probes := probes + {access[q] + ce[i..]};
      forall j: nat | j <= i ensures ProbeIn(h, access, ce, j, probes) {
        assert j < i ==> ProbeIn(h, access, ce, j, before);
      }
    }
  }

  /** `match(i)`, computed. */
  method Match(h: Mealy, access: seq<Word>, oracle: Oracle, ce: Word, i: nat) returns (same: bool)
    requires oracle.Valid() && h.Total() && h.Over(ce) && h.size == |access|
    requires ProbeIn(h, access, ce, i, oracle.cache.Keys)
    ensures same <==> MatchAt(h, oracle.inc, access, ce, i)
  {
    hide Mealy.Outputs;
    var q := h.RunState(ce[..i]);
    var s := access[q];
    OutputsConcat(oracle.inc, oracle.inc.initial, s, ce[i..]);
    var inc := oracle.Answer(s + ce[i..])[|s|..];
    var hyp := h.RunOutputsFrom(q, ce[i..]);
    same := inc == hyp;
  }

  /** The scan for the break point. It always finds one, so the fallback behind it is dead. */
  method BreakPoint(h: Mealy, access: seq<Word>, oracle: Oracle, ce: Word) returns (i: nat)
    requires oracle.Valid() && h.Total() && h.Over(ce) && h.size == |access|
    requires forall j: nat | j <= |ce| :: ProbeIn(h, access, ce, j, oracle.cache.Keys)
    requires !MatchAt(h, oracle.inc, access, ce, 0) && MatchAt(h, oracle.inc, access, ce, |ce|)
    ensures i < |ce|
    ensures !MatchAt(h, oracle.inc, access, ce, i) && MatchAt(h, oracle.inc, access, ce, i + 1)
    ensures forall j | 0 <= j <= i :: !MatchAt(h, oracle.inc, access, ce, j)
  {
    hide MatchAt, Mealy.Outputs, Mealy.After, Mealy.Over, Mealy.Total, Oracle.Valid;
    i := 0;
    while i < |ce|
      invariant i <= |ce| && ProbeIn(h, access, ce, i, oracle.cache.Keys)
      invariant !MatchAt(h, oracle.inc, access, ce, i)
      invariant forall j | 0 <= j < i :: !MatchAt(h, oracle.inc, access, ce, j)
    {
      var here := Match(h, access, oracle, ce, i);
      var next := Match(h, access, oracle, ce, i + 1);
      if !here && next {
        return;
      }
      i := i + 1;
    }
    assert false;                             // the fallback ce[1:]
  }

  /** The suffix is what follows the input behind which the counterexample matches for the first time. */
  ghost predicate BehindFirstBreak(h: Mealy, inc: Mealy, access: seq<Word>, ce: Word, suffix: Word) {
    exists i :: 0 < i <= |ce| && suffix == ce[i..] && FirstMatch(h, inc, access, ce, i)
  }

  ghost predicate FirstMatch(h: Mealy, inc: Mealy, access: seq<Word>, ce: Word, i: nat)
    requires i <= |ce|
  {
    MatchAt(h, inc, access, ce, i) && forall j: nat | j < i :: !MatchAt(h, inc, access, ce, j)
  }

  /** `_rivest_schapire`: the suffix it returns is not empty and splits a row of the table. */
  method RivestSchapire(ce: Word, h: Mealy, access: seq<Word>, table: Table) returns (suffix: Word)
    requires table.Valid() && access == table.S && TableDerived(h, table.oracle.inc, table.S, table.E)
    requires h.Over(ce) && h.Run(ce) != table.oracle.inc.Run(ce)
    modifies table.oracle
    ensures table.Valid() && old(table.oracle.cache.Keys) <= table.oracle.cache.Keys
    ensures suffix != [] && h.Over(suffix) && Splits(table.oracle.inc, table.S, table.E, suffix)
    ensures BehindFirstBreak(h, table.oracle.inc, access, ce, suffix)
  {
    hide RowOf, Splits, Mealy.Outputs, Mealy.After, MatchAt, Experiments, ProbeIn;
    var oracle, inc := table.oracle, table.oracle.inc;
    var probes := Probes(h, access, inc, ce);
    oracle.Prefill(probes);
    ProbesReady(h, inc, access, table.E, ce, probes, oracle.cache.Keys);
    var i := BreakPoint(h, access, oracle, ce);
    BreakPointSplits(h, inc, access, table.E, ce, i);
    suffix := ce[i + 1..];
    var next := i + 1;
    assert FirstMatch(h, inc, access, ce, next);
  }

  lemma ProbesReady(h: Mealy, inc: Mealy, S: seq<Word>, E: seq<Word>, ce: Word, probes: set<Word>, keys: set<Word>)
    requires inc.Total() && AccessWords(inc, S, E) && TableDerived(h, inc, S, E)
    requires h.Over(ce) && h.Run(ce) != inc.Run(ce) && probes <= keys
    requires forall j: nat | j <= |ce| :: ProbeIn(h, S, ce, j, probes)
    ensures forall j: nat | j <= |ce| :: ProbeIn(h, S, ce, j, keys) && h.Reach(ce[..j]) < |S|
    ensures !MatchAt(h, inc, S, ce, 0) && MatchAt(h, inc, S, ce, |ce|)
  {
    hide RowOf;
    forall j: nat | j <= |ce| ensures ProbeIn(h, S, ce, j, keys) && h.Reach(ce[..j]) < |S| {
      assert ProbeIn(h, S, ce, j, probes);
    }
    EndsMatch(h, inc, S, E, ce);
  }

  /** At 0 nothing is replaced and the counterexample fails to match; at the end nothing is left. */
  lemma EndsMatch(h: Mealy, inc: Mealy, S: seq<Word>, E: seq<Word>, ce: Word)
    requires inc.Total() && AccessWords(inc, S, E) && TableDerived(h, inc, S, E)
    requires h.Over(ce) && h.Run(ce) != inc.Run(ce)
    requires forall i | 0 <= i <= |ce| :: h.Reach(ce[..i]) < |S|
    ensures !MatchAt(h, inc, S, ce, 0) && MatchAt(h, inc, S, ce, |ce|)
  {
    hide RowOf;
    assert ce[..0] == [] && ce[0..] == ce && ce[|ce|..] == [];
    assert inc.Reach([]) == inc.initial;
  }

  /** Adding the suffix and closing the table again makes at least one more access word. */
  lemma SuffixMakesProgress(inc: Mealy, S: seq<Word>, E: seq<Word>, S': seq<Word>, E': seq<Word>, suffix: Word)
    requires AccessWords(inc, S, E) && Splits(inc, S, E, suffix) && E <= E' && suffix in E'
    requires S <= S' && Closed(inc, S', E')
    ensures |S| < |S'|
  {
    SplittingOpens(inc, S, E, E', suffix);
    assert S' != S;
  }

  lemma DerivedReachable(h: Mealy, inc: Mealy, S: seq<Word>, E: seq<Word>)
    requires AccessWords(inc, S, E) && TableDerived(h, inc, S, E)
    ensures forall q: nat | q < h.size :: Reachable(h, q)
  {
    forall q: nat | q < h.size ensures Reachable(h, q) {
      ReachesOwnState(h, inc, S, E, q);
      assert S[q] in S && inc.Over(S[q]);
      SameAlphabet(inc, h, S[q]);
    }
  }

  /** A conformance test of depth `depth` passed (with some state cover). */
  ghost predicate Conformant(h: Mealy, inc: Mealy, E: seq<Word>, n: int) {
    exists cover :: Covers(cover, h) && Conforms(h, inc, cover, E, Depth(n, h.size))
  }

  /** The incumbent answers the word differently. */
  ghost predicate Refuted(h: Mealy, inc: Mealy, ce: Word) {
    h.Over(ce) && h.Run(ce) != inc.Run(ce)
  }

  /** Each counterexample refutes the hypothesis of its round, and the next hypothesis is larger. */
  ghost predicate RefutedInTurn(inc: Mealy, hs: seq<Mealy>, ces: seq<Word>) {
    |hs| == |ces| + 1 && forall i: nat | i < |ces| :: Refuted(hs[i], inc, ces[i]) && hs[i].size < hs[i + 1].size
  }

  lemma NoneRefuted(inc: Mealy, h: Mealy)
    ensures RefutedInTurn(inc, [h], [])
  {
  }

  lemma OneMoreRefuted(inc: Mealy, hs: seq<Mealy>, ces: seq<Word>, h: Mealy, ce: Word, h': Mealy)
    requires RefutedInTurn(inc, hs, ces) && hs[|ces|] == h && Refuted(h, inc, ce) && h.size < h'.size
    ensures RefutedInTurn(inc, hs + [h'], ces + [ce])
  {
    hide Refuted;
  }

  /** `learn`. Every counterexample refutes the hypothesis of its round, and each hypothesis (`hs`) is larger
      than the one before. It never stalls; it uses fewer rounds than the incumbent has states; a model it
      calls converged passed the whole test set; and if the incumbent has no more states than the
      declared bound and than there are rounds, the model is exactly equivalent to it and no machine
      with that behaviour is smaller. */
  method LStar(oracle: Oracle, stateBound: int, maxRounds: nat)
      returns (status: Status, h: Mealy, table: Table, rounds: nat, ces: seq<Word>, ghost hs: seq<Mealy>)
    requires oracle.Valid()
    modifies oracle
    ensures fresh(table) && table.oracle == oracle && table.Valid()
    ensures TableDerived(h, oracle.inc, table.S, table.E)
    ensures status != StalledUnprocessedCe
    ensures rounds < h.size <= oracle.inc.size && |ces| == rounds <= maxRounds
    ensures RefutedInTurn(oracle.inc, hs, ces) && hs[rounds] == h
    ensures status == Converged <==> rounds < maxRounds
    ensures status == Converged ==> Conformant(h, oracle.inc, table.E, stateBound)
    ensures oracle.inc.size <= maxRounds ==> status == Converged
    ensures status == Converged && oracle.inc.size <= stateBound ==> Equivalent(h, oracle.inc)
    ensures forall other: Mealy | other.Total() && other.alphabet == h.alphabet && Equivalent(h, other) ::
        h.size <= other.size
  {
    hide RowOf, Splits, AccessWords, Experiments, Closed, TableDerived, Mealy.Outputs, Mealy.Total, Conformant, Equivalent,
      ShortestCover, RefutedInTurn, IsTest, NoLaterThan, Covers, Conforms;
    var inc := oracle.inc;
    table := new Table(oracle);
    var access: seq<Word>;
    h, access := table.Hypothesis();
    rounds, ces, hs := 0, [], [h];
    var stalled, conformant := false, false;
    HypothesisFacts(h, inc, table.S, table.E, stateBound);
    assert RefutedInTurn(inc, hs, ces) by {
      NoneRefuted(inc, h);
    }
    while rounds < maxRounds && !conformant && !stalled
      invariant fresh(table) && table.oracle == oracle && table.Valid()
      invariant table.Filled() && table.ClosedTable()
      invariant access == table.S && TableDerived(h, inc, table.S, table.E)
      invariant rounds < h.size && |ces| == rounds <= maxRounds && !stalled
      invariant RefutedInTurn(inc, hs, ces) && |hs| == rounds + 1 && hs[rounds] == h
      invariant conformant ==> Conformant(h, inc, table.E, stateBound) && rounds < maxRounds
      decreases maxRounds - rounds, !conformant
    {
      HypothesisFacts(h, inc, table.S, table.E, stateBound);
      var ce, cover := WMethodCe(h, oracle, table.E, stateBound);
      if ce.None? {
        conformant := true;
        PassedMeansConformant(h, inc, cover, table.E, stateBound);
      } else {
        ghost var before := h;
        h, access, stalled := Refine(ce.value, h, access, table);
        OneMoreRefuted(inc, hs, ces, before, ce.value, h);
        ces, hs, rounds := ces + [ce.value], hs + [h], rounds + 1;
      }
    }
    status := if stalled then StalledUnprocessedCe else if rounds < maxRounds then Converged else MaxRounds;
    HypothesisFacts(h, inc, table.S, table.E, stateBound);
  }

  /** The experiments, and the suffixes of one word. */
  ghost predicate GrownBy(E: seq<Word>, E': seq<Word>, suffix: Word) {
    forall e :: e in E' <==> e in E || IsSuffix(e, suffix)
  }

  /** One round of the loop: analyse the counterexample, extend E, close, rebuild. */
  method Refine(ce: Word, h: Mealy, access: seq<Word>, table: Table)
      returns (h': Mealy, access': seq<Word>, stalled: bool)
    requires table.Valid() && access == table.S && TableDerived(h, table.oracle.inc, table.S, table.E)
    requires h.Over(ce) && h.Run(ce) != table.oracle.inc.Run(ce)
    modifies table`S, table`E, table.oracle
    ensures table.Valid() && table.Filled() && table.ClosedTable()
    ensures access' == table.S && TableDerived(h', table.oracle.inc, table.S, table.E)
    ensures !stalled && h.size < h'.size
    ensures ClosedUp(table.oracle.inc, old(table.S), table.E, table.S)
    ensures exists suffix :: BehindFirstBreak(h, table.oracle.inc, access, ce, suffix) && GrownBy(old(table.E), table.E, suffix)
  {
    hide RowOf, Splits, AccessWords, Experiments, Closed, Mealy.Outputs, Mealy.Total, Mealy.Over;
    ghost var S, E := table.S, table.E;
    var suffix := RivestSchapire(ce, h, access, table);
    assert table.oracle.inc.Over(suffix) by {
      SameAlphabet(h, table.oracle.inc, suffix);
    }
    table.AddSuffix(suffix);
    assert GrownBy(E, table.E, suffix);
    table.FillAndClose();
    h', access' := table.Hypothesis();
    SuffixMakesProgress(table.oracle.inc, S, E, table.S, table.E, suffix);
    stalled := h'.size <= h.size;
  }

  lemma SameAlphabet(h: Mealy, inc: Mealy, w: Word)
    requires h.alphabet == inc.alphabet && h.Over(w)
    ensures inc.Over(w)
  {
  }

  lemma PassedMeansConformant(h: Mealy, inc: Mealy, cover: seq<Word>, E: seq<Word>, n: int)
    requires Covers(cover, h) && Conforms(h, inc, cover, E, Depth(n, h.size))
    ensures Conformant(h, inc, E, n)
  {
  }

  /** What every hypothesis built from a valid table satisfies. */
  lemma HypothesisFacts(h: Mealy, inc: Mealy, S: seq<Word>, E: seq<Word>, n: int)
    requires inc.Total() && Experiments(inc, E) && AccessWords(inc, S, E) && TableDerived(h, inc, S, E)
    ensures h.Total() && h.alphabet == inc.alphabet && h.size == |S| && 0 < h.size <= inc.size
    ensures forall q: nat | q < h.size :: Reachable(h, q)
    ensures forall w | w in E :: h.Over(w)
    ensures Conformant(h, inc, E, n) && inc.size <= n ==> Equivalent(h, inc)
    ensures forall other: Mealy | other.Total() && other.alphabet == h.alphabet && Equivalent(h, other) ::
        h.size <= other.size
  {
    hide RowOf, Mealy.Outputs;
    AccessBounded(inc, S, E);
    DerivedReachable(h, inc, S, E);
    DerivedSeparated(h, inc, S, E);
    if Conformant(h, inc, E, n) && inc.size <= n {
      var cover :| Covers(cover, h) && Conforms(h, inc, cover, E, Depth(n, h.size));
      Completeness(h, inc, cover, E, n);
    }
    assert Covers(S, h) by {
      forall q: nat | q < h.size ensures CoversState(S, h, q) {
        ReachesOwnState(h, inc, S, E, q);
        assert S[q] in S;
      }
    }
    forall other: Mealy | other.Total() && other.alphabet == h.alphabet && Equivalent(h, other)
      ensures h.size <= other.size
    {
      Minimal(h, S, E, other);
    }
  }
}
