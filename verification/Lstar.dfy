/** The learner of `buildloop/lstar.py`: membership oracle with a cache, observation table,
    bounded W-method, Rivest-Schapire counterexample analysis, and the L* loop. */
module Lstar {
  import opened Automata
  import opened WMethod
  import opened Observations
  import opened Order

  ghost predicate EachTwice(asked: multiset<Word>, words: set<Word>) {
    forall w :: asked[w] == if w in words && w != [] then 2 else 0
  }

  lemma AskMore(asked: multiset<Word>, words: set<Word>, more: set<Word>)
    requires EachTwice(asked, words) && [] in words && words !! more
    ensures EachTwice(asked + multiset(more) + multiset(more), words + more)
  {
  }

  lemma SetOf(words: seq<Word>, s: set<Word>)
    requires forall w :: w in words <==> w in s
    ensures (set w | w in words) == s
  {
  }

  /** Batched membership oracle. The incumbent is deterministic and answers every input, so the
      comparison of the two runs of a batch never raises. */
  class Oracle {
    const inc: Mealy                          // the black box: only RunBatch runs it
    var cache: map<Word, seq<Output>>
    var sandboxRuns: nat
    var maxBatch: nat
    ghost var asked: multiset<Word>           // every sequence ever sent to the incumbent

    /** The cache is right, and every cached sequence was sent exactly twice (the two runs of its
        one batch), the empty one never. */
    ghost predicate Valid()
      reads this
    {
      && inc.Total() && [] in cache
      && (forall w | w in cache :: inc.Over(w) && cache[w] == inc.Run(w))
      && EachTwice(asked, cache.Keys)
    }

    constructor (incumbent: Mealy)
      requires incumbent.Total()
      ensures Valid() && inc == incumbent && cache.Keys == {[]} && sandboxRuns == 0
    {
      inc := incumbent;
      cache := map[[] := []];
      sandboxRuns, maxBatch := 0, 0;
      asked := multiset{};
    }

    /** One sandbox run: a fresh incumbent per sequence. */
    method RunBatch(seqs: seq<Word>) returns (outs: seq<seq<Output>>)
      requires inc.Total() && forall i | 0 <= i < |seqs| :: inc.Over(seqs[i])
      modifies this`sandboxRuns, this`asked
      ensures |outs| == |seqs| && forall i | 0 <= i < |seqs| :: outs[i] == inc.Run(seqs[i])
      ensures sandboxRuns == old(sandboxRuns) + 1 && asked == old(asked) + multiset(seqs)
    {
      outs := [];
      for k := 0 to |seqs|
        invariant |outs| == k && forall i | 0 <= i < k :: outs[i] == inc.Run(seqs[i])
        invariant sandboxRuns == old(sandboxRuns) && asked == old(asked)
      {
        var o := inc.RunOutputsFrom(inc.initial, seqs[k]);
        outs := outs + [o];
      }
      sandboxRuns, asked := sandboxRuns + 1, asked + multiset(seqs);
    }

    /** Cache every sequence of `seqs`: no run when nothing is missing, otherwise one batch, run
        twice and compared. */
    method Prefill(seqs: set<Word>)
      requires Valid() && forall w | w in seqs :: inc.Over(w)
      modifies this
      ensures Valid() && cache.Keys == old(cache.Keys) + seqs
      ensures sandboxRuns == old(sandboxRuns) + if seqs <= old(cache.Keys) then 0 else 2
    {
      hide Oracle.Valid;
      var missing := set w | w in seqs && w !in cache;
      if missing != {} {
        assert missing !! cache.Keys && missing + cache.Keys == seqs + cache.Keys;
        FetchMissing(missing);
      } else {
        assert forall w | w in seqs :: w in missing || w in cache;
      }
    }

    method FetchMissing(missing: set<Word>)
      requires Valid() && (forall w | w in missing :: inc.Over(w)) && missing !! cache.Keys
      modifies this
      ensures Valid() && cache.Keys == old(cache.Keys) + missing
      ensures sandboxRuns == old(sandboxRuns) + 2
    {
      hide EachTwice, Mealy.Outputs, Mealy.After, Mealy.Over, Mealy.Total, Sorted;
      var todo := SortedWords(missing, false);
      AskMore(asked, cache.Keys, missing);
      maxBatch := if |todo| > maxBatch then |todo| else maxBatch;
      Fetch(todo);
      SetOf(todo, missing);
    }

    /** Both runs of one batch, the comparison, and the answers stored. */
    method Fetch(todo: seq<Word>)
      requires inc.Total() && forall i | 0 <= i < |todo| :: inc.Over(todo[i])
      modifies this`sandboxRuns, this`asked, this`cache
      ensures sandboxRuns == old(sandboxRuns) + 2
      ensures asked == old(asked) + multiset(todo) + multiset(todo)
      ensures cache.Keys == old(cache.Keys) + set w | w in todo
      ensures forall w | w in cache :: if w in todo then cache[w] == inc.Run(w) else cache[w] == old(cache)[w]
    {
      hide Mealy.Outputs, Mealy.Over, Mealy.Total;
      var outs := RunBatch(todo);
      var outs2 := RunBatch(todo);
      assert outs == outs2;                   // NondeterministicIncumbent is not raised
      Store(todo, outs);
    }

    method Store(seqs: seq<Word>, outs: seq<seq<Output>>)
      requires |outs| == |seqs| && forall i | 0 <= i < |seqs| :: outs[i] == inc.Run(seqs[i])
      modifies this`cache
      ensures cache.Keys == old(cache.Keys) + set w | w in seqs
      ensures forall w | w in cache :: if w in seqs then cache[w] == inc.Run(w) else cache[w] == old(cache)[w]
    {
      for k := 0 to |seqs|
        invariant cache.Keys == old(cache.Keys) + set w | w in seqs[..k]
        invariant forall w | w in cache :: if w in seqs[..k] then cache[w] == inc.Run(w) else cache[w] == old(cache)[w]
      {
        assert seqs[..k + 1] == seqs[..k] + [seqs[k]];
        cache := cache[seqs[k] := outs[k]];
      }
      assert seqs[..|seqs|] == seqs;
    }

    method OutSeq(w: Word) returns (outs: seq<Output>)
      requires Valid() && inc.Over(w)
      modifies this
      ensures Valid() && cache.Keys == old(cache.Keys) + {w} && outs == inc.Run(w)
      ensures sandboxRuns == old(sandboxRuns) + if w in old(cache) then 0 else 2
    {
      if w !in cache {
        Prefill({w});
      }
      outs := cache[w];
    }

    /** `outseq` on a sequence already prefilled: a cache hit. */
    function Answer(w: Word): (outs: seq<Output>)
      requires Valid() && w in cache
      reads this
      ensures outs == inc.Run(w)
    {
      cache[w]
    }
  }

  /** A non-empty end of the word. */
  ghost predicate IsSuffix(e: Word, w: Word) {
    exists j :: 0 <= j < |w| && e == w[j..]
  }

  /** The first `j` suffixes have been added, and nothing else. */
  ghost predicate SuffixesAdded(E: seq<Word>, E': seq<Word>, suffix: Word, j: nat)
    requires j <= |suffix|
  {
    && E <= E' && (forall e | e in E' :: e in E || IsSuffix(e, suffix))
    && forall i | 0 <= i < j :: suffix[i..] in E'
  }

  lemma NoSuffixYet(E: seq<Word>, suffix: Word)
    ensures SuffixesAdded(E, E, suffix, 0)
  {
  }

  lemma NextSuffix(E: seq<Word>, E': seq<Word>, suffix: Word, j: nat)
    requires j < |suffix| && SuffixesAdded(E, E', suffix, j)
    ensures suffix[j..] in E' ==> SuffixesAdded(E, E', suffix, j + 1)
    ensures SuffixesAdded(E, E' + [suffix[j..]], suffix, j + 1)
  {
    assert IsSuffix(suffix[j..], suffix);
  }

  lemma AllSuffixes(E: seq<Word>, E': seq<Word>, suffix: Word)
    requires SuffixesAdded(E, E', suffix, |suffix|)
    ensures forall e :: e in E' <==> e in E || IsSuffix(e, suffix)
  {
  }

  /** The experiments of one input each. */
  function Letters(alphabet: seq<Symbol>): seq<Word> {
    seq(|alphabet|, i requires 0 <= i < |alphabet| => [alphabet[i]])
  }

  class Table {
    const oracle: Oracle
    var S: seq<Word>
    var E: seq<Word>

    ghost predicate Valid()
      reads this, oracle
    {
      oracle.Valid() && Experiments(oracle.inc, E) && AccessWords(oracle.inc, S, E)
    }

    /** Every cell of the table and of its one-input extensions is cached. */
    ghost predicate Filled()
      reads this, oracle
    {
      Needed() <= oracle.cache.Keys
    }

    ghost predicate ClosedTable()
      reads this
    {
      Closed(oracle.inc, S, E)
    }

    constructor (o: Oracle)
      requires o.Valid()
      modifies o
      ensures Valid() && Filled() && ClosedTable() && oracle == o
      ensures E == Letters(o.inc.alphabet) && ClosedUp(o.inc, [[]], E, S)
    {
      oracle := o;
      S := [[]];
      E := Letters(o.inc.alphabet);
      new;
      assert HasLetters(E, oracle.inc.alphabet) by {
        forall a | a in oracle.inc.alphabet ensures [a] in E {
          var i :| 0 <= i < |oracle.inc.alphabet| && oracle.inc.alphabet[i] == a;
          assert E[i] == [a];
        }
      }
      FillAndClose();
    }

    function Needed(): set<Word>
      reads this
    {
      (set s, e | s in S && e in E :: s + e)
      + (set s, a, e | s in S && a in oracle.inc.alphabet && e in E :: s + [a] + e)
    }

    /** The row of `u`, read from the cache. */
    method RowAt(u: Word) returns (r: Row)
      requires oracle.Valid() && forall e | e in E :: u + e in oracle.cache
      ensures r == RowOf(oracle.inc, u, E)
    {
      r := [];
      for k := 0 to |E|
        invariant |r| == k && forall i | 0 <= i < k :: r[i] == Cell(oracle.inc, u, E[i])
      {
        OutputsConcat(oracle.inc, oracle.inc.initial, u, E[k]);
        r := r + [oracle.Answer(u + E[k])[|u|..]];
      }
    }

    /** The set of the rows of S. */
    method RowsOfS() returns (rows: set<Row>)
      requires oracle.Valid() && Filled()
      ensures rows == set s | s in S :: RowOf(oracle.inc, s, E)
    {
      hide RowOf, AccessWords, Experiments, Oracle.Valid, Mealy.Outputs, Mealy.After;
      rows := {};
      for k := 0 to |S|
        invariant rows == set s | s in S[..k] :: RowOf(oracle.inc, s, E)
      {
        RowNeeded(S[k]);
        var r := RowAt(S[k]);
        assert S[..k + 1] == S[..k] + [S[k]];
        rows := rows + {r};
      }
      assert S[..|S|] == S;
    }

    lemma NeededOver()
      requires Valid()
      ensures forall w | w in Needed() :: oracle.inc.Over(w)
    {
      forall s, a: Symbol, e | s in S && a in oracle.inc.alphabet && e in E
        ensures oracle.inc.Over(s + e) && oracle.inc.Over(s + [a] + e)
      {
        OverConcat(oracle.inc, s, e);
        OverConcat(oracle.inc, s, [a]);
        OverConcat(oracle.inc, s + [a], e);
      }
    }

    lemma RowNeeded(s: Word)
      requires s in S
      ensures forall e | e in E :: s + e in Needed()
    {
    }

    lemma ExtensionNeeded(s: Word, a: Symbol)
      requires s in S && a in oracle.inc.alphabet
      ensures forall e | e in E :: s + [a] + e in Needed()
    {
    }

    /** Fill the table in one batch per pass, and add access words until no row is unknown. */
    method FillAndClose()
      requires Valid()
      modifies oracle, this`S
      ensures Valid() && Filled() && ClosedTable()
      ensures ClosedUp(oracle.inc, old(S), E, S) && old(S) <= S
    {
      hide RowOf, AccessWords, Experiments, Closed, Mealy.Total, Mealy.Over, Mealy.Outputs, EachTwice, NextAccess, Grows;
      var inc := oracle.inc;
      GrowsNot(inc, S, E);
      while true
        invariant Valid() && inc == oracle.inc && E == old(E) && old(S) <= S && Grows(inc, old(S), E, S)
        decreases inc.size - |S|
      {
        NeededOver();
        oracle.Prefill(Needed());
        var rows := RowsOfS();
        ghost var before := S;
        var added := AddUnknownRow(rows);
        if !added {
          return;
        }
        GrowsMore(inc, old(S), E, before, S);
        AccessBounded(inc, S, E);
      }
    }

    /** The two inner loops of `fill_and_close`: the first extension with an unknown row joins S. */
    method AddUnknownRow(rows: set<Row>) returns (added: bool)
      requires Valid() && Filled()
      requires rows == set s | s in S :: RowOf(oracle.inc, s, E)
      modifies this`S
      ensures Valid()
      ensures !added ==> S == old(S) && ClosedTable()
      ensures added ==> |S| == |old(S)| + 1 && old(S) <= S && NextAccess(oracle.inc, old(S), E, S[|old(S)|])
      ensures old(S) <= S
    {
      hide RowOf, AccessWords, Experiments, Oracle.Valid, Mealy.After, Mealy.Outputs, RowKnown;
      var inc := oracle.inc;
      var i := 0;
      added := false;
      while i < |S|
        invariant 0 <= i <= |S| && S == old(S)
        invariant forall k: nat, l: nat | k < i && l < |inc.alphabet| :: KnownAt(inc, S, E, k, l)
      {
        var j := 0;
        while j < |inc.alphabet|
          invariant 0 <= j <= |inc.alphabet| && S == old(S)
          invariant forall l: nat | l < j :: KnownAt(inc, S, E, i, l)
        {
          var u := S[i] + [inc.alphabet[j]];
          ExtensionNeeded(S[i], inc.alphabet[j]);
          var r := RowAt(u);
          KnownRow(inc, u, S, E, rows);
          if r !in rows {
            AccessWordsGrowS(inc, S, E, S[i], inc.alphabet[j]);
            assert FirstUnknown(inc, S, E, i, j);
            S := S + [u];
            added := true;
            return;
          }
          j := j + 1;
        }
        i := i + 1;
      }
      AllRowsKnown(inc, S, E);
    }

    /** Add an experiment and all its non-empty suffixes, longest first. */
    method AddSuffix(suffix: Word)
      requires Valid() && oracle.inc.Over(suffix)
      modifies this`E
      ensures Valid() && old(E) <= E && (suffix != [] ==> suffix in E)
      ensures forall e :: e in E <==> e in old(E) || IsSuffix(e, suffix)
    {
      hide RowOf, Oracle.Valid, Mealy.After, Mealy.Outputs, Mealy.Total, SuffixesAdded, IsSuffix;
      var inc := oracle.inc;
      NoSuffixYet(E, suffix);
      for j := 0 to |suffix|
        invariant old(E) <= E && HasLetters(E, inc.alphabet)
        invariant forall e | e in E :: inc.Over(e) && e != []
        invariant forall e | Among(e, E) && |e| > 1 :: e[1..] in E || e[1..] == suffix[j..]
        invariant j > 0 ==> suffix in E
        invariant SuffixesAdded(old(E), E, suffix, j)
      {
        var s := suffix[j..];
        assert s[1..] == suffix[j + 1..];
        NextSuffix(old(E), E, suffix, j);
        if s !in E {
          E := E + [s];
        }
      }
      AccessWordsGrowE(inc, S, old(E), E);
      AllSuffixes(old(E), E, suffix);
    }

    /** `rep`: the first access word of each row, with the rows in insertion order. */
    method Representatives() returns (rep: map<Row, Word>, rows: seq<Row>)
      requires Valid() && Filled()
      ensures rows == RowsInOrder(oracle.inc, S, E) && rep.Keys == set r | r in rows
      ensures forall i | 0 <= i < |S| :: rep[rows[i]] == S[i]
    {
      hide RowOf, AccessWords, Experiments, Oracle.Valid;
      rep, rows := map[], [];
      for k := 0 to |S|
        invariant rows == RowsInOrder(oracle.inc, S[..k], E) && rep.Keys == set r | r in rows
        invariant forall i | 0 <= i < k :: rep[rows[i]] == S[i]
      {
        RowNeeded(S[k]);
        var r := RowAt(S[k]);
        FirstOfItsRow(oracle.inc, S, E, k);
        assert S[..k + 1] == S[..k] + [S[k]];
        if r !in rep {
          rep, rows := rep[r := S[k]], rows + [r];
        }
      }
      assert S[..|S|] == S;
    }

    /** One transition, read from the table: the state of the row of s + (a,), and the last output. */
    method Transition(s: Word, a: Symbol, rows: seq<Row>, name: map<Row, nat>) returns (q: nat, o: Output)
      requires Valid() && Filled() && ClosedTable() && s in S && a in oracle.inc.alphabet
      requires rows == RowsInOrder(oracle.inc, S, E)
      requires forall r | r in rows :: r in name && name[r] < |rows| && rows[name[r]] == r
      ensures q < |S| && RowOf(oracle.inc, S[q], E) == RowOf(oracle.inc, s + [a], E)
      ensures o == oracle.inc.Emit(oracle.inc.Reach(s), a)
    {
      hide RowOf, AccessWords, Mealy.Over, Mealy.Total, EachTwice;
      ExtensionNeeded(s, a);
      var r := RowAt(s + [a]);
      assert Extension(oracle.inc, s, a, S);
      assert RowKnown(oracle.inc, s + [a], S, E);
      ghost var t :| 0 <= t < |S| && RowOf(oracle.inc, S[t], E) == RowOf(oracle.inc, s + [a], E);
      assert rows[t] == r;
      q := name[r];
      RowNeeded(s);
      assert [a] in E;
      OutputsConcat(oracle.inc, oracle.inc.initial, s, [a]);
      o := oracle.Answer(s + [a])[|s|..][0];
    }

    /** `delta` and `out`: the transitions of every state. */
    method Transitions(rep: map<Row, Word>, rows: seq<Row>, name: map<Row, nat>)
        returns (delta: map<(nat, Symbol), nat>, out: map<(nat, Symbol), Output>)
      requires Valid() && Filled() && ClosedTable()
      requires rows == RowsInOrder(oracle.inc, S, E) && rep.Keys == set r | r in rows
      requires forall i | 0 <= i < |S| :: rep[rows[i]] == S[i]
      requires forall r | r in rows :: r in name && name[r] < |rows| && rows[name[r]] == r
      ensures Entries(oracle.inc, S, E, delta, out, |S|, 0)
    {
      hide RowOf, Entries, AccessWords, Oracle.Valid, Closed, Experiments;
      var inc := oracle.inc;
      delta, out := map[], map[];
      FirstAccess();
      NoEntries(inc, S, E);
      for k := 0 to |rows|
        invariant Entries(inc, S, E, delta, out, k, 0)
      {
        for j := 0 to |inc.alphabet|
          invariant Entries(inc, S, E, delta, out, k, j)
        {
          var a := inc.alphabet[j];
          var q, o := Transition(rep[rows[k]], a, rows, name);
          AddEntry(inc, S, E, delta, out, k, j, q, o);
          delta, out := delta[(k, a) := q], out[(k, a) := o];
        }
        RowComplete(inc, S, E, delta, out, k);
      }
    }

    /** The hypothesis: one state per distinct row, in the order the rows appear in S. */
    method Hypothesis() returns (h: Mealy, access: seq<Word>)
      requires Valid() && Filled() && ClosedTable()
      ensures access == S && TableDerived(h, oracle.inc, S, E)
    {
      hide RowOf, AccessWords, Oracle.Valid, Closed, Experiments, TableDerived, Entries;
      var rep, rows := Representatives();
      var name := Numbered(rows);
      var delta, out := Transitions(rep, rows, name);
      assert S != [] && S[0] == [] by {
        FirstAccess();
      }
      RowNeeded([]);
      var first := RowAt([]);
      access := seq(|rows|, k requires 0 <= k < |rows| => rep[rows[k]]);
      OneIndexPerRow(oracle.inc, S, E, name[first], 0);
      h := Mealy(|rows|, name[first], oracle.inc.alphabet, delta, out);
      EntriesDerive(h, oracle.inc, S, E);
    }

    lemma FirstAccess()
      requires Valid()
      ensures S != [] && S[0] == []
    {
    }
  }

  ghost function RowsInOrder(inc: Mealy, S: seq<Word>, E: seq<Word>): seq<Row> {
    seq(|S|, i requires 0 <= i < |S| => RowOf(inc, S[i], E))
  }

  lemma FirstOfItsRow(inc: Mealy, S: seq<Word>, E: seq<Word>, k: nat)
    requires AccessWords(inc, S, E) && k < |S|
    ensures RowOf(inc, S[k], E) !in RowsInOrder(inc, S[..k], E)
  {
    hide RowOf;
  }

  lemma KnownRow(inc: Mealy, u: Word, S: seq<Word>, E: seq<Word>, rows: set<Row>)
    requires rows == set s | s in S :: RowOf(inc, s, E)
    ensures RowKnown(inc, u, S, E) <==> RowOf(inc, u, E) in rows
  {
    hide RowOf;
  }

  /** The scan over all positions covers all extensions. */
  lemma AllRowsKnown(inc: Mealy, S: seq<Word>, E: seq<Word>)
    requires forall k: nat, l: nat | k < |S| && l < |inc.alphabet| :: KnownAt(inc, S, E, k, l)
    ensures forall s, a | Extension(inc, s, a, S) :: RowKnown(inc, s + [a], S, E)
  {
    hide RowKnown;
    forall s, a | Extension(inc, s, a, S) ensures RowKnown(inc, s + [a], S, E) {
      var k :| 0 <= k < |S| && S[k] == s;
      var l :| 0 <= l < |inc.alphabet| && inc.alphabet[l] == a;
      assert KnownAt(inc, S, E, k, l);
    }
  }

  /** `name`: the position of each row. */
  method Numbered(rows: seq<Row>) returns (name: map<Row, nat>)
    ensures forall r | r in rows :: r in name && name[r] < |rows| && rows[name[r]] == r
  {
    name := map[];
    for k := 0 to |rows|
      invariant forall r | r in rows[..k] :: r in name && name[r] < k && rows[name[r]] == r
    {
      name := name[rows[k] := k];
    }
    assert rows[..|rows|] == rows;
  }

  ghost predicate RightEntry(
      inc: Mealy, S: seq<Word>, E: seq<Word>,
      delta: map<(nat, Symbol), nat>, out: map<(nat, Symbol), Output>, k: nat, a: Symbol)
    requires k < |S|
  {
    && (k, a) in delta && delta[(k, a)] < |S|
    && RowOf(inc, S[delta[(k, a)]], E) == RowOf(inc, S[k] + [a], E)
    && (k, a) in out && out[(k, a)] == inc.Emit(inc.Reach(S[k]), a)
  }

  /** The entries of the states before `k`, and of `k` on the first `j` inputs, are right. */
  ghost predicate Entries(
      inc: Mealy, S: seq<Word>, E: seq<Word>,
      delta: map<(nat, Symbol), nat>, out: map<(nat, Symbol), Output>, k: nat, j: nat)
    requires k <= |S| && j <= |inc.alphabet| && (k == |S| ==> j == 0)
  {
    && (forall i: nat, l: nat | i < k && l < |inc.alphabet| :: RightEntry(inc, S, E, delta, out, i, inc.alphabet[l]))
    && (forall l: nat | l < j :: RightEntry(inc, S, E, delta, out, k, inc.alphabet[l]))
  }

  lemma NoEntries(inc: Mealy, S: seq<Word>, E: seq<Word>)
    requires S != []
    ensures Entries(inc, S, E, map[], map[], 0, 0)
  {
  }

  lemma RowComplete(
      inc: Mealy, S: seq<Word>, E: seq<Word>, delta: map<(nat, Symbol), nat>, out: map<(nat, Symbol), Output>, k: nat)
    requires k < |S| && Entries(inc, S, E, delta, out, k, |inc.alphabet|)
    ensures Entries(inc, S, E, delta, out, k + 1, 0)
  {
    hide RightEntry;
  }

  lemma AddEntry(
      inc: Mealy, S: seq<Word>, E: seq<Word>,
      delta: map<(nat, Symbol), nat>, out: map<(nat, Symbol), Output>, k: nat, j: nat, q: nat, o: Output)
    requires k < |S| && j < |inc.alphabet| && Entries(inc, S, E, delta, out, k, j)
    requires q < |S| && RowOf(inc, S[q], E) == RowOf(inc, S[k] + [inc.alphabet[j]], E)
    requires o == inc.Emit(inc.Reach(S[k]), inc.alphabet[j])
    ensures Entries(inc, S, E, delta[(k, inc.alphabet[j]) := q], out[(k, inc.alphabet[j]) := o], k, j + 1)
  {
    hide RowOf;
    var a := inc.alphabet[j];
    var delta', out' := delta[(k, a) := q], out[(k, a) := o];
    forall i: nat, l: nat | i < k && l < |inc.alphabet| ensures RightEntry(inc, S, E, delta', out', i, inc.alphabet[l]) {
      assert RightEntry(inc, S, E, delta, out, i, inc.alphabet[l]);
    }
    forall l: nat | l < j + 1 ensures RightEntry(inc, S, E, delta', out', k, inc.alphabet[l]) {
      assert l < j ==> RightEntry(inc, S, E, delta, out, k, inc.alphabet[l]);
    }
  }

  lemma EntriesDerive(h: Mealy, inc: Mealy, S: seq<Word>, E: seq<Word>)
    requires h.size == |S| > 0 && h.initial == 0 && h.alphabet == inc.alphabet
    requires Entries(inc, S, E, h.delta, h.out, |S|, 0)
    ensures TableDerived(h, inc, S, E)
  {
    hide RowOf;
    forall k: nat, a | k < |S| && a in inc.alphabet
      ensures (k, a) in h.delta && h.delta[(k, a)] < |S| && (k, a) in h.out
      ensures RowOf(inc, S[h.Next(k, a)], E) == RowOf(inc, S[k] + [a], E)
      ensures h.Emit(k, a) == inc.Emit(inc.Reach(S[k]), a)
    {
      var l: nat :| l < |inc.alphabet| && inc.alphabet[l] == a;
      assert RightEntry(inc, S, E, h.delta, h.out, k, inc.alphabet[l]);
    }
  }
}
