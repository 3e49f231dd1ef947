/** Finite Mealy machines over the declared abstract inputs of `buildloop/lstar.py`. The same
    datatype is used for the incumbent (hidden behind the oracle) and for the learned machine. */
module Automata {
  import opened Order

  /** One abstract input. Each declared input name stands for one character, numbered in name
      order, so that comparing words is comparing Python's tuples of names. */
  type Symbol = char
  type Word = seq<Symbol>
  type Output = string

  /** Some word of `words` is `w` (kept apart from `in` so that it can serve as a trigger). */
  predicate Among(w: Word, words: seq<Word>) {
    w in words
  }

  datatype Mealy = Mealy(
    size: nat,                            // the states are 0, 1, ..., size - 1
    initial: nat,
    alphabet: seq<Symbol>,
    delta: map<(nat, Symbol), nat>,
    out: map<(nat, Symbol), Output>)
  {
    /** Both tables have an entry for every (state, input), so no lookup can fail. */
    ghost predicate Total() {
      && initial < size
      && (forall q: nat, a: Symbol | q < size && a in alphabet :: (q, a) in delta && delta[(q, a)] < size)
      && (forall q: nat, a: Symbol | q < size && a in alphabet :: (q, a) in out)
    }

    predicate Over(w: Word) {
      forall i | 0 <= i < |w| :: w[i] in alphabet
    }

    function Next(q: nat, a: Symbol): nat {
      if (q, a) in delta then delta[(q, a)] else q
    }

    function Emit(q: nat, a: Symbol): Output {
      if (q, a) in out then out[(q, a)] else ""
    }

    /** The state reached from `q` by `w`. */
    function After(q: nat, w: Word): nat
      decreases |w|
    {
      if w == [] then q else After(Next(q, w[0]), w[1..])
    }

    /** The outputs emitted from `q` on `w`, one per input. */
    function Outputs(q: nat, w: Word): (outs: seq<Output>)
      ensures |outs| == |w|
      decreases |w|
    {
      if w == [] then [] else [Emit(q, w[0])] + Outputs(Next(q, w[0]), w[1..])
    }

    function Run(w: Word): seq<Output> {
      Outputs(initial, w)
    }

    function Reach(w: Word): nat {
      After(initial, w)
    }

    /** Mealy.run_state: a loop over the input sequence. */
    method RunState(w: Word) returns (q: nat)
      requires Total() && Over(w)
      ensures q == Reach(w) && q < size
    {
      q := initial;
      for i := 0 to |w|
        invariant q < size
        invariant After(q, w[i..]) == Reach(w)
      {
        assert w[i..][1..] == w[i + 1..];
        q := delta[(q, w[i])];
      }
    }

    /** Mealy.run_outputs_from: a loop appending one output per input. */
    method RunOutputsFrom(start: nat, w: Word) returns (outs: seq<Output>)
      requires Total() && Over(w) && start < size
      ensures outs == Outputs(start, w)
    {
      var q: nat := start;
      outs := [];
      for i := 0 to |w|
        invariant q < size
        invariant outs + Outputs(q, w[i..]) == Outputs(start, w)
      {
        assert w[i..][1..] == w[i + 1..];
        assert outs + Outputs(q, w[i..]) == (outs + [out[(q, w[i])]]) + Outputs(delta[(q, w[i])], w[i + 1..]);
        outs := outs + [out[(q, w[i])]];
        q := delta[(q, w[i])];
      }
      assert Outputs(q, w[|w|..]) == [];
    }
  }

  /** Equal outputs on every input sequence of any length. */
  ghost predicate Equivalent(m1: Mealy, m2: Mealy) {
    forall w: Word | m1.Over(w) :: m1.Run(w) == m2.Run(w)
  }

  lemma AfterInRange(m: Mealy, q: nat, w: Word)
    requires m.Total() && m.Over(w) && q < m.size
    ensures m.After(q, w) < m.size
    decreases |w|
  {
    if w != [] {
      assert w[0] in m.alphabet;
      AfterInRange(m, m.Next(q, w[0]), w[1..]);
    }
  }

  lemma {:induction false} AfterConcat(m: Mealy, q: nat, u: Word, v: Word)
    ensures m.After(q, u + v) == m.After(m.After(q, u), v)
    decreases |u|
  {
    if u == [] {
      assert u + v == v;
    } else {
      assert (u + v)[1..] == u[1..] + v;
      AfterConcat(m, m.Next(q, u[0]), u[1..], v);
    }
  }

  /** A machine answers a concatenation by answering the first part and then, from the state
      reached, the second: this is what makes `outseq(u + e)[len(u):]` a function of that state. */
  lemma {:induction false} OutputsConcat(m: Mealy, q: nat, u: Word, v: Word)
    ensures m.Outputs(q, u + v) == m.Outputs(q, u) + m.Outputs(m.After(q, u), v)
    ensures m.Outputs(q, u + v)[|u|..] == m.Outputs(m.After(q, u), v)
    decreases |u|
  {
    if u == [] {
      assert u + v == v;
    } else {
      assert (u + v)[1..] == u[1..] + v;
      OutputsConcat(m, m.Next(q, u[0]), u[1..], v);
    }
  }

  lemma OverConcat(m: Mealy, u: Word, v: Word)
    ensures m.Over(u + v) <==> m.Over(u) && m.Over(v)
  {
    if m.Over(u + v) {
      assert forall i | 0 <= i < |u| :: u[i] == (u + v)[i];
      assert forall i | 0 <= i < |v| :: v[i] == (u + v)[|u| + i];
    }
  }

  /** The numbers below `n`. */
  ghost function Below(n: nat): (s: set<nat>)
    ensures |s| == n
    ensures forall x: nat :: x in s <==> x < n
  {
    if n == 0 then {} else Below(n - 1) + {n - 1}
  }

  /** Pigeonhole: distinct numbers below `n` are at most `n` many. */
  lemma DistinctBelow(xs: seq<nat>, n: nat)
    requires forall i | 0 <= i < |xs| :: xs[i] < n
    requires forall i, j | 0 <= i < j < |xs| :: xs[i] != xs[j]
    ensures |xs| <= n
  {
    DistinctFit(xs, Below(n));
  }
}
