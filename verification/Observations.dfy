/** The laws of the L* observation table, on values: S are access words, E experiments, and a row
    is what the incumbent answers on E after an access word. */
module Observations {
  import opened Automata
  import opened WMethod

  type Row = seq<seq<Output>>

  /** A cell: what the incumbent answers to the experiment `e` behind the access word `u` (OutputsConcat). */
  ghost function Cell(inc: Mealy, u: Word, e: Word): seq<Output> {
    inc.Outputs(inc.Reach(u), e)
  }

  ghost function RowOf(inc: Mealy, u: Word, E: seq<Word>): Row {
    seq(|E|, i requires 0 <= i < |E| => Cell(inc, u, E[i]))
  }

  /** E: inputs of length one, and closed under suffixes. */
  ghost predicate Experiments(inc: Mealy, E: seq<Word>) {
    && HasLetters(E, inc.alphabet)
    && (forall e | e in E :: inc.Over(e) && e != [])
    && (forall e | Among(e, E) && |e| > 1 :: e[1..] in E)
  }

  /** S: prefix-closed, starting with the empty word, with pairwise distinct rows. */
  ghost predicate AccessWords(inc: Mealy, S: seq<Word>, E: seq<Word>) {
    && S != [] && S[0] == []
    && (forall s | s in S :: inc.Over(s))
    && (forall s | Among(s, S) && s != [] :: s[..|s| - 1] in S)
    && (forall i, j | 0 <= i < j < |S| :: RowOf(inc, S[i], E) != RowOf(inc, S[j], E))
  }

  ghost predicate RowKnown(inc: Mealy, u: Word, S: seq<Word>, E: seq<Word>) {
    exists k :: 0 <= k < |S| && RowOf(inc, S[k], E) == RowOf(inc, u, E)
  }

  ghost predicate Closed(inc: Mealy, S: seq<Word>, E: seq<Word>) {
    forall s, a | Extension(inc, s, a, S) :: RowKnown(inc, s + [a], S, E)
  }

  ghost predicate Extension(inc: Mealy, s: Word, a: Symbol, S: seq<Word>) {
    s in S && a in inc.alphabet
  }

  /** The row behind the k-th access word and the l-th input is known. */
  ghost predicate KnownAt(inc: Mealy, S: seq<Word>, E: seq<Word>, k: nat, l: nat) {
    k < |S| && l < |inc.alphabet| && RowKnown(inc, S[k] + [inc.alphabet[l]], S, E)
  }

  /** The k-th access word and the l-th input are the first, in this order, with an unknown row. */
  ghost predicate FirstUnknown(inc: Mealy, S: seq<Word>, E: seq<Word>, k: nat, l: nat) {
    && k < |S| && l < |inc.alphabet| && !KnownAt(inc, S, E, k, l)
    && (forall i: nat, j: nat | i < |S| && j < |inc.alphabet| && (i < k || (i == k && j < l)) :: KnownAt(inc, S, E, i, j))
  }

  ghost predicate NextAccess(inc: Mealy, S: seq<Word>, E: seq<Word>, u: Word) {
    exists k: nat, l: nat :: FirstUnknown(inc, S, E, k, l) && u == S[k] + [inc.alphabet[l]]
  }

  /** Each word added is the first extension with an unknown row. */
  ghost predicate Grows(inc: Mealy, S: seq<Word>, E: seq<Word>, S': seq<Word>) {
    S <= S' && forall k: nat | |S| <= k < |S'| :: NextAccess(inc, S'[..k], E, S'[k])
  }

  /** `fill_and_close` turns S into S'. */
  ghost predicate ClosedUp(inc: Mealy, S: seq<Word>, E: seq<Word>, S': seq<Word>) {
    Grows(inc, S, E, S') && Closed(inc, S', E)
  }

  lemma GrowsNot(inc: Mealy, S: seq<Word>, E: seq<Word>)
    ensures Grows(inc, S, E, S)
  {
  }

  lemma GrowsMore(inc: Mealy, S: seq<Word>, E: seq<Word>, S': seq<Word>, S'': seq<Word>)
    requires Grows(inc, S, E, S') && S' <= S'' && |S''| == |S'| + 1 && NextAccess(inc, S', E, S''[|S'|])
    ensures Grows(inc, S, E, S'')
  {
    hide NextAccess;
    forall k: nat | |S| <= k < |S''| ensures NextAccess(inc, S''[..k], E, S''[k]) {
      assert S''[..k] == S'[..k] && S'[..|S'|] == S';
      assert k < |S'| ==> S''[k] == S'[k] && NextAccess(inc, S'[..k], E, S'[k]);
    }
  }

  lemma NextAccessUnique(inc: Mealy, S: seq<Word>, E: seq<Word>, u: Word, v: Word)
    requires NextAccess(inc, S, E, u) && NextAccess(inc, S, E, v)
    ensures u == v
  {
    hide KnownAt;
    var k: nat, l: nat :| FirstUnknown(inc, S, E, k, l) && u == S[k] + [inc.alphabet[l]];
    var i: nat, j: nat :| FirstUnknown(inc, S, E, i, j) && v == S[i] + [inc.alphabet[j]];
    assert k == i && l == j;
  }

  lemma NextAccessOpen(inc: Mealy, S: seq<Word>, E: seq<Word>, u: Word)
    requires NextAccess(inc, S, E, u)
    ensures !Closed(inc, S, E)
  {
    hide RowKnown;
    var k: nat, l: nat :| FirstUnknown(inc, S, E, k, l) && u == S[k] + [inc.alphabet[l]];
    assert Extension(inc, S[k], inc.alphabet[l], S);
  }

  lemma {:induction false} ClosedUpAgree(inc: Mealy, S: seq<Word>, E: seq<Word>, S': seq<Word>, S'': seq<Word>, k: nat)
    requires ClosedUp(inc, S, E, S') && ClosedUp(inc, S, E, S'') && |S| <= k <= |S'| && k <= |S''|
    ensures S'[..k] == S''[..k]
  {
    hide Closed, NextAccess;
    if k > |S| {
      var n := k - 1;
      ClosedUpAgree(inc, S, E, S', S'', n);
      NextAccessUnique(inc, S'[..n], E, S'[n], S''[n]);
      assert S'[..k] == S'[..n] + [S'[n]] && S''[..k] == S''[..n] + [S''[n]];
    }
  }

  /** THE TABLE IS DETERMINED: closing a table up has one outcome. */
  lemma ClosedUpUnique(inc: Mealy, S: seq<Word>, E: seq<Word>, S': seq<Word>, S'': seq<Word>)
    requires ClosedUp(inc, S, E, S') && ClosedUp(inc, S, E, S'')
    ensures S' == S''
  {
    hide Closed, NextAccess;
    var n := if |S'| <= |S''| then |S'| else |S''|;
    ClosedUpAgree(inc, S, E, S', S'', n);
    assert S'[..|S'|] == S' && S''[..|S''|] == S'';
    if n < |S''| {
      NextAccessOpen(inc, S''[..n], E, S''[n]);
    }
    if n < |S'| {
      NextAccessOpen(inc, S'[..n], E, S'[n]);
    }
  }

  /** What `hypothesis` builds: state k stands for the row of S[k] and is accessed by S[k]. */
  ghost predicate TableDerived(h: Mealy, inc: Mealy, S: seq<Word>, E: seq<Word>) {
    && h.Total() && h.size == |S| && h.initial == 0 && h.alphabet == inc.alphabet
    && (forall k: nat, a | k < |S| && a in inc.alphabet ::
          && h.Next(k, a) < |S|
          && RowOf(inc, S[h.Next(k, a)], E) == RowOf(inc, S[k] + [a], E)
          && h.Emit(k, a) == inc.Emit(inc.Reach(S[k]), a))
  }

  lemma SameStateSameRow(inc: Mealy, u: Word, v: Word, E: seq<Word>)
    ensures inc.Reach(u) == inc.Reach(v) ==> RowOf(inc, u, E) == RowOf(inc, v, E)
  {
  }

  lemma OneIndexPerRow(inc: Mealy, S: seq<Word>, E: seq<Word>, i: nat, j: nat)
    requires AccessWords(inc, S, E) && i < |S| && j < |S| && RowOf(inc, S[i], E) == RowOf(inc, S[j], E)
    ensures i == j
  {
  }

  /** Rows are a function of the incumbent's state, so S is never longer than its state set. */
  lemma AccessBounded(inc: Mealy, S: seq<Word>, E: seq<Word>)
    requires inc.Total() && AccessWords(inc, S, E)
    ensures |S| <= inc.size
  {
    var states := seq(|S|, i requires 0 <= i < |S| => inc.Reach(S[i]));
    forall i | 0 <= i < |S| ensures states[i] < inc.size {
      AfterInRange(inc, inc.initial, S[i]);
    }
    forall i, j | 0 <= i < j < |S| ensures states[i] != states[j] {
      SameStateSameRow(inc, S[i], S[j], E);
    }
    DistinctBelow(states, inc.size);
  }

  /** More experiments split rows further, never merge them. */
  lemma RowsStayDistinct(inc: Mealy, u: Word, v: Word, E: seq<Word>, E': seq<Word>)
    requires E <= E' && RowOf(inc, u, E') == RowOf(inc, v, E')
    ensures RowOf(inc, u, E) == RowOf(inc, v, E)
  {
    assert RowOf(inc, u, E) == RowOf(inc, u, E')[..|E|];
    assert RowOf(inc, v, E) == RowOf(inc, v, E')[..|E|];
  }

  lemma CellFromRow(inc: Mealy, u: Word, v: Word, E: seq<Word>, e: Word)
    requires RowOf(inc, u, E) == RowOf(inc, v, E) && e in E
    ensures Cell(inc, u, e) == Cell(inc, v, e)
  {
    var i :| 0 <= i < |E| && E[i] == e;
    assert RowOf(inc, u, E)[i] == RowOf(inc, v, E)[i];
  }

  lemma AccessWordsGrowE(inc: Mealy, S: seq<Word>, E: seq<Word>, E': seq<Word>)
    requires AccessWords(inc, S, E) && E <= E'
    ensures AccessWords(inc, S, E')
  {
    forall i, j | 0 <= i < j < |S| ensures RowOf(inc, S[i], E') != RowOf(inc, S[j], E') {
      if RowOf(inc, S[i], E') == RowOf(inc, S[j], E') {
        RowsStayDistinct(inc, S[i], S[j], E, E');
      }
    }
  }

  /** An unknown row one input behind S extends S. */
  lemma AccessWordsGrowS(inc: Mealy, S: seq<Word>, E: seq<Word>, s: Word, a: Symbol)
    requires AccessWords(inc, S, E) && s in S && a in inc.alphabet && !RowKnown(inc, s + [a], S, E)
    ensures AccessWords(inc, S + [s + [a]], E)
  {
    hide RowOf, Mealy.After;
    var u := s + [a];
    assert u[..|u| - 1] == s;
    OverConcat(inc, s, [a]);
  }

  // ------------------------------------------------------------ the table invariant

  /** Every access word reaches its own state. */
  lemma {:induction false} ReachesOwnState(h: Mealy, inc: Mealy, S: seq<Word>, E: seq<Word>, k: nat)
    requires AccessWords(inc, S, E) && TableDerived(h, inc, S, E) && k < |S|
    ensures h.Reach(S[k]) == k
    decreases |S[k]|
  {
    hide RowOf, AccessWords, TableDerived, Mealy.After;
    var j, a := Parent(inc, S, E, k);
    if S[k] == [] {
      OneIndexPerRow(inc, S, E, j, k);
      EmptyWordReaches(h, inc, S, E);
    } else {
      ReachesOwnState(h, inc, S, E, j);
      StepReachesState(h, inc, S, E, j, a, k);
    }
  }

  /** The access word one input shorter (the first one, for the empty word). */
  lemma Parent(inc: Mealy, S: seq<Word>, E: seq<Word>, k: nat) returns (j: nat, a: Symbol)
    requires AccessWords(inc, S, E) && k < |S|
    ensures j < |S| && if S[k] == [] then j == 0 && S[j] == [] else S[k] == S[j] + [a]
  {
    hide RowOf, Mealy.Over;
    if S[k] == [] {
      j, a := 0, 'a';
    } else {
      assert Among(S[k], S);
      var p := S[k][..|S[k]| - 1];
      j, a :| j < |S| && S[j] == p && a == S[k][|S[k]| - 1];
    }
  }

  lemma EmptyWordReaches(h: Mealy, inc: Mealy, S: seq<Word>, E: seq<Word>)
    requires AccessWords(inc, S, E) && TableDerived(h, inc, S, E)
    ensures h.Reach(S[0]) == 0
  {
    hide RowOf;
  }

  lemma StepReachesState(h: Mealy, inc: Mealy, S: seq<Word>, E: seq<Word>, j: nat, a: Symbol, k: nat)
    requires AccessWords(inc, S, E) && TableDerived(h, inc, S, E)
    requires j < |S| && k < |S| && S[k] == S[j] + [a] && h.Reach(S[j]) == j
    ensures h.Reach(S[k]) == k
  {
    hide RowOf, Mealy.Outputs, Mealy.After;
    assert S[k] in S && S[k][|S[k]| - 1] == a && inc.Over(S[k]);
    StepReach(h, S[j], a);
    OneIndexPerRow(inc, S, E, h.Next(j, a), k);
  }

  /** The hypothesis reproduces every cell of the table. */
  lemma {:induction false} ReproducesCells(h: Mealy, inc: Mealy, S: seq<Word>, E: seq<Word>, k: nat, e: Word)
    requires Experiments(inc, E) && AccessWords(inc, S, E) && TableDerived(h, inc, S, E)
    requires k < |S| && e in E
    ensures h.Outputs(k, e) == Cell(inc, S[k], e)
    decreases |e|
  {
    var a := e[0];
    assert inc.Over(e) && a in inc.alphabet;
    var k' := h.Next(k, a);
    StepReach(inc, S[k], a);
    if |e| > 1 {
      assert Among(e, E);
      ReproducesCells(h, inc, S, E, k', e[1..]);
      CellFromRow(inc, S[k'], S[k] + [a], E, e[1..]);
    } else {
      assert e[1..] == [];
    }
  }

  /** Hence the experiments tell all its states apart, and all of them are reached. */
  lemma DerivedSeparated(h: Mealy, inc: Mealy, S: seq<Word>, E: seq<Word>)
    requires Experiments(inc, E) && AccessWords(inc, S, E) && TableDerived(h, inc, S, E)
    ensures Separates(E, h)
  {
    forall x: nat, y: nat | x < h.size && y < h.size && x != y ensures Told(E, h, x, y) {
      SameOutputsSameRow(h, inc, S, E, x, y);
      if !Told(E, h, x, y) {
        OneIndexPerRow(inc, S, E, x, y);
      }
    }
  }

  lemma SameOutputsSameRow(h: Mealy, inc: Mealy, S: seq<Word>, E: seq<Word>, x: nat, y: nat)
    requires Experiments(inc, E) && AccessWords(inc, S, E) && TableDerived(h, inc, S, E)
    requires x < |S| && y < |S|
    ensures Told(E, h, x, y) || RowOf(inc, S[x], E) == RowOf(inc, S[y], E)
  {
    hide Experiments, AccessWords, TableDerived, Cell, Mealy.Outputs;
    if !Told(E, h, x, y) {
      forall i | 0 <= i < |E| ensures Cell(inc, S[x], E[i]) == Cell(inc, S[y], E[i]) {
        ReproducesCells(h, inc, S, E, x, E[i]);
        ReproducesCells(h, inc, S, E, y, E[i]);
      }
    }
  }

  // ------------------------------------------------------------ counterexamples

  /** `match(i)` of `_rivest_schapire`: after replacing the first `i` inputs of the counterexample
      by the access word of the state they reach, the incumbent still answers the rest as the
      hypothesis does. */
  ghost predicate MatchAt(h: Mealy, inc: Mealy, S: seq<Word>, ce: Word, i: nat)
    requires i <= |ce|
  {
    && h.Reach(ce[..i]) < |S|
    && inc.Outputs(inc.Reach(S[h.Reach(ce[..i])]), ce[i..]) == h.Outputs(h.Reach(ce[..i]), ce[i..])
  }

  /** The suffix tells apart two words whose rows were equal: one in S, one a single input behind S. */
  ghost predicate Splits(inc: Mealy, S: seq<Word>, E: seq<Word>, suffix: Word) {
    exists s, a, k: nat :: SplitsAt(inc, S, E, suffix, s, a, k)
  }

  ghost predicate SplitsAt(inc: Mealy, S: seq<Word>, E: seq<Word>, suffix: Word, s: Word, a: Symbol, k: nat) {
    && s in S && a in inc.alphabet && k < |S|
    && RowOf(inc, s + [a], E) == RowOf(inc, S[k], E)
    && Cell(inc, s + [a], suffix) != Cell(inc, S[k], suffix)
  }

  /** The break point of the Rivest-Schapire scan yields a non-empty splitting suffix. */
  lemma BreakPointSplits(h: Mealy, inc: Mealy, S: seq<Word>, E: seq<Word>, ce: Word, i: nat)
    requires inc.Total() && AccessWords(inc, S, E) && TableDerived(h, inc, S, E)
    requires h.Over(ce) && i < |ce|
    requires h.Reach(ce[..i]) < |S| && h.Reach(ce[..i + 1]) < |S|
    requires !MatchAt(h, inc, S, ce, i) && MatchAt(h, inc, S, ce, i + 1)
    ensures ce[i + 1..] != [] && Splits(inc, S, E, ce[i + 1..])
  {
    hide RowOf, AccessWords;
    var q, a, suffix := h.Reach(ce[..i]), ce[i], ce[i + 1..];
    assert a in inc.alphabet && S[q] in S;
    assert ce[..i + 1] == ce[..i] + [a];
    StepReach(h, ce[..i], a);
    StepReach(inc, S[q], a);
    var x := inc.Reach(S[q]);
    assert ce[i..][1..] == suffix && ce[i..][0] == a;
    assert h.Outputs(q, ce[i..]) == [h.Emit(q, a)] + h.Outputs(h.Next(q, a), suffix);
    assert inc.Outputs(x, ce[i..]) == [inc.Emit(x, a)] + inc.Outputs(inc.Next(x, a), suffix);
    assert SplitsAt(inc, S, E, suffix, S[q], a, h.Next(q, a));
  }

  /** A splitting suffix opens the table: some row behind S is then unknown. */
  lemma SplittingOpens(inc: Mealy, S: seq<Word>, E: seq<Word>, E': seq<Word>, suffix: Word)
    requires AccessWords(inc, S, E) && Splits(inc, S, E, suffix) && E <= E' && suffix in E'
    ensures !Closed(inc, S, E')
  {
    var s, a, k: nat :| SplitsAt(inc, S, E, suffix, s, a, k);
    assert Extension(inc, s, a, S);
    if RowKnown(inc, s + [a], S, E') {
      var j :| 0 <= j < |S| && RowOf(inc, S[j], E') == RowOf(inc, s + [a], E');
      RowsStayDistinct(inc, S[j], s + [a], E, E');
      assert RowOf(inc, S[j], E) == RowOf(inc, S[k], E);
      assert j == k;
      CellFromRow(inc, S[j], s + [a], E', suffix);
    }
  }
}
