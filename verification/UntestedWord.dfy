/** An input of the learner on which the counterexample of `w_method_ce` is longer than the shortest
    disagreement: the first table of `learn`, and an incumbent with one state more than declared. */
module UntestedWord {
  import opened Automata
  import opened WMethod
  import opened Observations
  import opened Lstar
  import opened ConformanceTest
  import opened ShortestTest

  const LETTERS: seq<Symbol> := ['a', 'b']
  const ACCESS: seq<Word> := [[], ['b'], ['b', 'a']]
  const EXPERIMENTS: seq<Word> := [['a'], ['b']]

  // ---------------------------------------------------------------- the machines

  function Step(q: nat, a: Symbol): (r: nat)
    ensures r < 5
  {
    if a == 'a' then if q == 0 || q == 3 then 1 else if q == 2 then 4 else 3
    else if q == 2 then 1 else if q == 3 then 3 else if q == 4 then 4 else 2
  }

  /** The state of the hypothesis that stands for a state of the incumbent. */
  function Class(q: nat): (c: nat)
    ensures c < 3
  {
    if q == 2 then 1 else if q == 4 then 2 else 0
  }

  function HypStep(c: nat, a: Symbol): (r: nat)
    ensures r < 3
  {
    if a == 'a' then if c == 1 then 2 else 0 else if c == 0 then 1 else if c == 1 then 0 else 2
  }

  function HypEmit(c: nat, a: Symbol): Output {
    if a == 'a' then if c == 1 then "0" else "1" else if c == 2 then "1" else "0"
  }

  const CELLS: set<(nat, Symbol)> := set q: nat, a: Symbol | q < 5 && a in LETTERS :: (q, a)

  function Incumbent(): Mealy {
    Mealy(5, 0, LETTERS, map c | c in CELLS :: Step(c.0, c.1), map c | c in CELLS :: HypEmit(Class(c.0), c.1))
  }

  function Hypothesis(): Mealy {
    Mealy(3, 0, LETTERS, map c | c in CELLS :: HypStep(c.0, c.1), map c | c in CELLS :: HypEmit(c.0, c.1))
  }

  lemma Machines()
    ensures Incumbent().size == 5 && Incumbent().initial == 0 && Incumbent().alphabet == LETTERS
    ensures Hypothesis().size == 3 && Hypothesis().initial == 0 && Hypothesis().alphabet == LETTERS
  {
  }

  lemma Tables(q: nat, a: Symbol)
    requires q < 5 && a in LETTERS
    ensures (q, a) in Incumbent().delta && Incumbent().delta[(q, a)] == Step(q, a)
    ensures (q, a) in Incumbent().out && Incumbent().out[(q, a)] == HypEmit(Class(q), a)
    ensures (q, a) in Hypothesis().delta && Hypothesis().delta[(q, a)] == HypStep(q, a)
    ensures (q, a) in Hypothesis().out && Hypothesis().out[(q, a)] == HypEmit(q, a)
  {
    hide Step, Class, HypStep, HypEmit;
    var cell := (q, a);
    assert cell in CELLS;
  }

  lemma Steps(q: nat, a: Symbol)
    requires q < 5 && a in LETTERS
    ensures Incumbent().Next(q, a) == Step(q, a) && Incumbent().Emit(q, a) == HypEmit(Class(q), a)
    ensures Hypothesis().Next(q, a) == HypStep(q, a) && Hypothesis().Emit(q, a) == HypEmit(q, a)
  {
    Tables(q, a);
    hide Incumbent, Hypothesis;
  }

  ghost predicate HasEntry(m: Mealy, q: nat, a: Symbol) {
    (q, a) in m.delta && m.delta[(q, a)] < m.size && (q, a) in m.out
  }

  lemma EntriesMakeTotal(m: Mealy)
    requires m.initial < m.size && forall q: nat, a: Symbol | q < m.size && a in m.alphabet :: HasEntry(m, q, a)
    ensures m.Total()
  {
    forall q: nat, a: Symbol | q < m.size && a in m.alphabet
      ensures (q, a) in m.delta && m.delta[(q, a)] < m.size && (q, a) in m.out
    {
      assert HasEntry(m, q, a);
    }
  }

  lemma BothTotal()
    ensures Incumbent().Total() && Hypothesis().Total()
  {
    Machines();
    hide Incumbent, Hypothesis, HasEntry, Mealy.Total, Step, HypStep;
    forall q: nat, a: Symbol | q < 5 && a in LETTERS
      ensures HasEntry(Incumbent(), q, a) && (q < 3 ==> HasEntry(Hypothesis(), q, a))
    {
      Entries(q, a);
    }
    EntriesMakeTotal(Incumbent());
    EntriesMakeTotal(Hypothesis());
  }

  lemma Entries(q: nat, a: Symbol)
    requires q < 5 && a in LETTERS
    ensures HasEntry(Incumbent(), q, a) && (q < 3 ==> HasEntry(Hypothesis(), q, a))
  {
    Tables(q, a);
    Machines();
    hide Incumbent, Hypothesis, Step, HypStep;
  }

  // ---------------------------------------------------------------- where they differ

  /** The one transition of the incumbent that its class does not have. */
  predicate Trap(q: nat, a: Symbol) {
    q == 3 && a == 'b'
  }

  lemma ClassSteps(q: nat, a: Symbol)
    requires q < 5 && a in LETTERS
    ensures Class(Step(q, a)) == HypStep(Class(q), a) <==> !Trap(q, a)
  {
  }

  /** The transition is not taken before the last input. */
  predicate Avoids(q: nat, w: Word)
    decreases |w|
  {
    |w| <= 1 || (!Trap(q, w[0]) && Avoids(Step(q, w[0]), w[1..]))
  }

  lemma {:induction false} AvoidingAgrees(q: nat, w: Word)
    requires q < 5 && Avoids(q, w) && forall i | 0 <= i < |w| :: w[i] in LETTERS
    ensures Incumbent().Outputs(q, w) == Hypothesis().Outputs(Class(q), w)
    decreases |w|
  {
    hide Incumbent, Hypothesis, Step, Class, HypStep, HypEmit, Trap;
    if w != [] {
      Steps(q, w[0]);
      Steps(Class(q), w[0]);
      ClassSteps(q, w[0]);
      if |w| > 1 {
        AvoidingAgrees(Step(q, w[0]), w[1..]);
      } else {
        assert w[1..] == [];
      }
    }
  }

  /** A word of three inputs is too short to tell, and so is one of four that starts with "b". */
  lemma ShortAvoids(w: Word)
    requires forall i | 0 <= i < |w| :: w[i] in LETTERS
    requires |w| <= 3 || (|w| == 4 && w[0] == 'b')
    ensures Avoids(0, w)
  {
    if |w| > 1 {
      assert Avoids(0, w) <==> !Trap(0, w[0]) && Avoids(Step(0, w[0]), w[1..]);
      var q, v := Step(0, w[0]), w[1..];
      assert q == 1 || q == 2;
      if |v| > 1 {
        assert Avoids(q, v) <==> !Trap(q, v[0]) && Avoids(Step(q, v[0]), v[1..]);
        var r, x := Step(q, v[0]), v[1..];
        if |x| > 1 {
          assert r != 3;
          assert Avoids(r, x) <==> !Trap(r, x[0]) && Avoids(Step(r, x[0]), x[1..]);
        }
      }
    }
  }

  /** The states after a word, step by step. */
  lemma Reaches(w: Word, a: Symbol, q: nat, c: nat)
    requires a in LETTERS && q < 5 && c < 3 && Incumbent().Reach(w) == q && Hypothesis().Reach(w) == c
    ensures Incumbent().Reach(w + [a]) == Step(q, a) && Hypothesis().Reach(w + [a]) == HypStep(c, a)
  {
    hide Incumbent, Hypothesis, Mealy.Reach, Step, HypStep;
    StepReach(Incumbent(), w, a);
    StepReach(Hypothesis(), w, a);
    Steps(q, a);
    Steps(c, a);
  }

  lemma ReachesNothing()
    ensures Incumbent().Reach([]) == 0 && Hypothesis().Reach([]) == 0
  {
    Machines();
    hide Incumbent, Hypothesis;
  }

  lemma LastDiffers(w: Word, a: Symbol, q: nat, c: nat)
    requires a in LETTERS && q < 5 && c < 3 && Incumbent().Reach(w) == q && Hypothesis().Reach(w) == c
    requires HypEmit(Class(q), a) != HypEmit(c, a)
    ensures Hypothesis().Run(w + [a]) != Incumbent().Run(w + [a])
  {
    hide Incumbent, Hypothesis, Mealy.Reach, Mealy.Run;
    RunLast(Incumbent(), w, a);
    RunLast(Hypothesis(), w, a);
    Steps(q, a);
    Steps(c, a);
    var r, s := Incumbent().Run(w), Hypothesis().Run(w);
    assert (r + [HypEmit(Class(q), a)])[|r|] == HypEmit(Class(q), a);
    assert |r + [HypEmit(Class(q), a)]| == |r| + 1 && |s + [HypEmit(c, a)]| == |s| + 1;
    assert (s + [HypEmit(c, a)])[|s|] == HypEmit(c, a);
  }

  /** Behind "aa" and "baa" the incumbent is in state 3, and "b" is the trap. */
  lemma TrapWord(w: Word)
    requires Incumbent().Reach(w) == 3 && Hypothesis().Reach(w) == 0
    ensures Hypothesis().Run(w + ['b'] + ['a']) != Incumbent().Run(w + ['b'] + ['a'])
  {
    hide Incumbent, Hypothesis, Mealy.Reach, Mealy.Run;
    Reaches(w, 'b', 3, 0);
    LastDiffers(w + ['b'], 'a', 3, 1);
  }

  lemma BothWords()
    ensures Hypothesis().Run("aaba") != Incumbent().Run("aaba")
    ensures Hypothesis().Run("baaba") != Incumbent().Run("baaba")
  {
    hide Incumbent, Hypothesis, Mealy.Reach, Mealy.Run;
    ReachesNothing();
    Reaches([], 'a', 0, 0);
    Reaches([] + ['a'], 'a', 1, 0);
    TrapWord([] + ['a'] + ['a']);
    assert [] + ['a'] + ['a'] + ['b'] + ['a'] == "aaba";
    Reaches([], 'b', 0, 0);
    Reaches([] + ['b'], 'a', 2, 1);
    Reaches([] + ['b'] + ['a'], 'a', 4, 2);
    TrapWord([] + ['b'] + ['a'] + ['a']);
    assert [] + ['b'] + ['a'] + ['a'] + ['b'] + ['a'] == "baaba";
  }

  // ---------------------------------------------------------------- the table

  /** A row of the table, from the class of the state. */
  function ClassRow(c: nat): Row {
    [[HypEmit(c, 'a')], [HypEmit(c, 'b')]]
  }

  lemma RowIs(u: Word, q: nat)
    requires q < 5 && Incumbent().Reach(u) == q
    ensures RowOf(Incumbent(), u, EXPERIMENTS) == ClassRow(Class(q))
  {
    OneInput(q, 'a');
    OneInput(q, 'b');
    TwoCells(Incumbent(), u);
    hide Incumbent, Mealy.Reach, HypEmit, Class, RowOf, Mealy.Outputs;
  }

  lemma TwoCells(inc: Mealy, u: Word)
    ensures RowOf(inc, u, EXPERIMENTS) == [inc.Outputs(inc.Reach(u), ['a']), inc.Outputs(inc.Reach(u), ['b'])]
  {
    hide Mealy.Outputs, Mealy.Reach;
    var row := RowOf(inc, u, EXPERIMENTS);
    assert row[0] == Cell(inc, u, ['a']) && row[1] == Cell(inc, u, ['b']) && |row| == 2;
  }

  lemma OneInput(q: nat, a: Symbol)
    requires q < 5 && a in LETTERS
    ensures Incumbent().Outputs(q, [a]) == [HypEmit(Class(q), a)]
  {
    hide Incumbent, HypEmit, Class;
    Steps(q, a);
    assert [a][1..] == [];
  }

  lemma ClassRowsDiffer(c: nat, d: nat)
    requires c < 3 && d < 3
    ensures ClassRow(c) == ClassRow(d) <==> c == d
  {
    assert "0" != "1";
    assert ClassRow(c)[0] == [HypEmit(c, 'a')] && ClassRow(c)[1] == [HypEmit(c, 'b')];
    assert ClassRow(d)[0] == [HypEmit(d, 'a')] && ClassRow(d)[1] == [HypEmit(d, 'b')];
  }

  /** The states behind the access words and one input more. */
  lemma AccessStates()
    ensures Incumbent().Reach(ACCESS[0]) == 0 && Incumbent().Reach(ACCESS[1]) == 2 && Incumbent().Reach(ACCESS[2]) == 4
    ensures Hypothesis().Reach(ACCESS[0]) == 0 && Hypothesis().Reach(ACCESS[1]) == 1 && Hypothesis().Reach(ACCESS[2]) == 2
  {
    hide Incumbent, Hypothesis, Mealy.Reach;
    ReachesNothing();
    Reaches([], 'b', 0, 0);
    assert [] + ['b'] == ['b'] && ['b'] + ['a'] == ['b', 'a'];
    Reaches(['b'], 'a', 2, 1);
  }

  /** The state of the incumbent behind the k-th access word. */
  function At(k: nat): (q: nat)
    ensures q < 5
  {
    if k == 0 then 0 else if k == 1 then 2 else 4
  }

  lemma AccessRow(k: nat)
    requires k < 3
    ensures Incumbent().Reach(ACCESS[k]) == At(k) && Hypothesis().Reach(ACCESS[k]) == k == Class(At(k))
    ensures RowOf(Incumbent(), ACCESS[k], EXPERIMENTS) == ClassRow(k)
  {
    AccessStates();
    hide Incumbent, Hypothesis, Mealy.Reach, RowOf, ClassRow;
    RowIs(ACCESS[k], At(k));
  }

  lemma ExtensionRow(k: nat, a: Symbol)
    requires k < 3 && a in LETTERS
    ensures RowOf(Incumbent(), ACCESS[k] + [a], EXPERIMENTS) == ClassRow(HypStep(k, a))
  {
    AccessRow(k);
    hide Incumbent, Hypothesis, Mealy.Reach, RowOf, ClassRow;
    Reaches(ACCESS[k], a, At(k), k);
    ClassSteps(At(k), a);
    RowIs(ACCESS[k] + [a], Step(At(k), a));
  }

  lemma FirstAccess(n: nat)
    requires n <= 3
    ensures |ACCESS[..n]| == n && forall k | 0 <= k < n :: ACCESS[..n][k] == ACCESS[k]
  {
  }

  /** Of the first `n` access words one has the row behind the k-th and the l-th input, if that row is
      the row of one of the first `n` states. */
  lemma KnownIff(n: nat, k: nat, l: nat)
    requires k < n <= 3 && l < 2
    ensures KnownAt(Incumbent(), ACCESS[..n], EXPERIMENTS, k, l) <==> HypStep(k, LETTERS[l]) < n
  {
    Machines();
    FirstAccess(n);
    hide Incumbent, RowOf, ClassRow, HypStep;
    var a := LETTERS[l];
    ExtensionRow(k, a);
    if KnownAt(Incumbent(), ACCESS[..n], EXPERIMENTS, k, l) {
      var i :| 0 <= i < n
        && RowOf(Incumbent(), ACCESS[..n][i], EXPERIMENTS) == RowOf(Incumbent(), ACCESS[k] + [a], EXPERIMENTS);
      AccessRow(i);
      ClassRowsDiffer(i, HypStep(k, a));
    }
    if HypStep(k, a) < n {
      AccessRow(HypStep(k, a));
      assert RowOf(Incumbent(), ACCESS[..n][HypStep(k, a)], EXPERIMENTS)
        == RowOf(Incumbent(), ACCESS[..n][k] + [Incumbent().alphabet[l]], EXPERIMENTS);
    }
  }

  lemma NextIs(n: nat, k: nat, l: nat)
    requires 1 <= n < 3 && k < n && l < 2 && HypStep(k, LETTERS[l]) >= n && ACCESS[n] == ACCESS[k] + [LETTERS[l]]
    requires forall i: nat, j: nat | i < n && j < 2 && (i < k || (i == k && j < l)) :: HypStep(i, LETTERS[j]) < n
    ensures NextAccess(Incumbent(), ACCESS[..n], EXPERIMENTS, ACCESS[n])
  {
    FirstAccess(n);
    Machines();
    assert |LETTERS| == 2;
    hide *;
    KnownIff(n, k, l);
    forall i: nat, j: nat | i < n && j < 2 && (i < k || (i == k && j < l))
      ensures KnownAt(Incumbent(), ACCESS[..n], EXPERIMENTS, i, j)
    {
      KnownIff(n, i, j);
    }
    FirstIsNext(Incumbent(), ACCESS[..n], EXPERIMENTS, k, l);
  }

  lemma FirstIsNext(inc: Mealy, S: seq<Word>, E: seq<Word>, k: nat, l: nat)
    requires k < |S| && l < |inc.alphabet| && !KnownAt(inc, S, E, k, l)
    requires forall i: nat, j: nat | i < |S| && j < |inc.alphabet| && (i < k || (i == k && j < l)) :: KnownAt(inc, S, E, i, j)
    ensures NextAccess(inc, S, E, S[k] + [inc.alphabet[l]])
  {
    hide KnownAt;
    assert FirstUnknown(inc, S, E, k, l);
  }

  lemma TableGrows()
    ensures Grows(Incumbent(), [[]], EXPERIMENTS, ACCESS)
  {
    hide Incumbent, NextAccess;
    NextIs(1, 0, 1);
    NextIs(2, 1, 0);
    assert ACCESS[..1] == [[]] && ACCESS == [[]] + ACCESS[1..];
  }

  lemma TableCloses()
    ensures Closed(Incumbent(), ACCESS, EXPERIMENTS)
  {
    Machines();
    hide Incumbent, RowOf, ClassRow, HypStep;
    forall s, a | Extension(Incumbent(), s, a, ACCESS) ensures RowKnown(Incumbent(), s + [a], ACCESS, EXPERIMENTS) {
      var k :| 0 <= k < 3 && ACCESS[k] == s;
      ExtensionRow(k, a);
      AccessRow(HypStep(k, a));
    }
  }

  lemma TableIsTable()
    ensures Letters(LETTERS) == EXPERIMENTS && Experiments(Incumbent(), EXPERIMENTS)
    ensures AccessWords(Incumbent(), ACCESS, EXPERIMENTS)
  {
    Machines();
    hide Incumbent, RowOf, ClassRow;
    forall i, j | 0 <= i < j < 3
      ensures RowOf(Incumbent(), ACCESS[i], EXPERIMENTS) != RowOf(Incumbent(), ACCESS[j], EXPERIMENTS)
    {
      AccessRow(i);
      AccessRow(j);
      ClassRowsDiffer(i, j);
    }
    assert ['b'][..0] == [] && ['b', 'a'][..1] == ['b'];
    assert EXPERIMENTS[0] == ['a'] && EXPERIMENTS[1] == ['b'];
  }

  lemma FromTable()
    ensures TableDerived(Hypothesis(), Incumbent(), ACCESS, EXPERIMENTS)
  {
    Machines();
    BothTotal();
    hide Incumbent, Hypothesis, Mealy.Total, RowOf, ClassRow, HypStep, Mealy.Reach;
    forall k: nat, a | k < 3 && a in LETTERS
      ensures Hypothesis().Next(k, a) < 3
      ensures RowOf(Incumbent(), ACCESS[Hypothesis().Next(k, a)], EXPERIMENTS)
        == RowOf(Incumbent(), ACCESS[k] + [a], EXPERIMENTS)
      ensures Hypothesis().Emit(k, a) == Incumbent().Emit(Incumbent().Reach(ACCESS[k]), a)
    {
      Steps(k, a);
      AccessRow(k);
      Steps(At(k), a);
      ExtensionRow(k, a);
      AccessRow(HypStep(k, a));
    }
  }

  // ---------------------------------------------------------------- the tests

  lemma OverLetters(w: Word)
    requires Hypothesis().Over(w)
    ensures forall i | 0 <= i < |w| :: w[i] in LETTERS
  {
  }

  /** The words of a shortest cover are the access words. */
  lemma CoverWords(cover: seq<Word>, p: Word)
    requires Covers(cover, Hypothesis()) && ShortestCover(cover, Hypothesis()) && Among(p, cover)
    ensures |p| <= 2 && (p != [] ==> p[0] == 'b')
    ensures |p| == 2 ==> p == ['b', 'a']
  {
    hide Incumbent, Hypothesis, Covers, ShortestCover, Mealy.Reach;
    var c := CoverBound(cover, p);
    ReachesNothing();
    if |p| == 1 {
      ShortReach([], p[0], 0);
      assert p == [] + [p[0]];
    } else if |p| == 2 {
      ShortReach([], p[0], 0);
      ShortReach([] + [p[0]], p[1], HypStep(0, p[0]));
      assert p == [] + [p[0]] + [p[1]];
    }
  }

  lemma CoverBound(cover: seq<Word>, p: Word) returns (c: nat)
    requires Covers(cover, Hypothesis()) && ShortestCover(cover, Hypothesis()) && Among(p, cover)
    ensures c < 3 && Hypothesis().Reach(p) == c && |p| <= c && forall i | 0 <= i < |p| :: p[i] in LETTERS
  {
    hide ShortestCover, Covers;
    c := Hypothesis().Reach(p);
    Machines();
    BothTotal();
    CoverIsOver(cover, p);
    OverLetters(p);
    AfterInRange(Hypothesis(), Hypothesis().initial, p);
    AccessRow(c);
    AccessOver(c);
    NotLonger(cover, p, ACCESS[c]);
  }

  lemma NotLonger(cover: seq<Word>, p: Word, w: Word)
    requires ShortestCover(cover, Hypothesis()) && Among(p, cover) && Hypothesis().Over(w)
    requires Hypothesis().Reach(w) == Hypothesis().Reach(p)
    ensures |p| <= |w|
  {
    hide Hypothesis, Mealy.Reach, Mealy.Over;
  }

  lemma AccessOver(c: nat)
    requires c < 3
    ensures Hypothesis().Over(ACCESS[c]) && |ACCESS[c]| == c
  {
    Machines();
    hide Hypothesis;
    var s := ACCESS[c];
    assert forall i | 0 <= i < |s| :: s[i] in LETTERS;
  }

  lemma ShortReach(w: Word, a: Symbol, c: nat)
    requires a in LETTERS && c < 3 && Hypothesis().Reach(w) == c
    ensures Hypothesis().Reach(w + [a]) == HypStep(c, a)
  {
    hide Incumbent, Hypothesis, Mealy.Reach, HypStep;
    StepReach(Hypothesis(), w, a);
    Steps(c, a);
  }

  lemma ShortTestsPass(cover: seq<Word>, t: Word)
    requires Covers(cover, Hypothesis()) && ShortestCover(cover, Hypothesis())
    requires IsTest(t, Hypothesis(), cover, EXPERIMENTS, 2) && |t| <= 4
    ensures Hypothesis().Run(t) == Incumbent().Run(t)
  {
    Machines();
    hide Incumbent, Hypothesis, Covers, ShortestCover, Mealy.Outputs, Avoids;
    var p, u, w :| Among(p, cover) && Hypothesis().Over(u) && |u| <= 2 && Among(w, EXPERIMENTS) && t == p + u + w;
    CoverWords(cover, p);
    OverLetters(u);
    CoverIsOver(cover, p);
    OverLetters(p);
    assert |w| == 1 && w[0] in LETTERS;
    forall i | 0 <= i < |t| ensures t[i] in LETTERS {
    }
    assert |t| == 4 ==> |p| >= 1 && t[0] == p[0];
    ShortAvoids(t);
    AvoidingAgrees(0, t);
  }

  lemma CoverIsOver(cover: seq<Word>, p: Word)
    requires Covers(cover, Hypothesis()) && Among(p, cover)
    ensures Hypothesis().Over(p)
  {
  }

  lemma LongTest(cover: seq<Word>)
    requires Covers(cover, Hypothesis()) && ShortestCover(cover, Hypothesis())
    ensures IsTest("baaba", Hypothesis(), cover, EXPERIMENTS, 2)
  {
    Machines();
    AccessStates();
    hide Incumbent, Hypothesis, Mealy.Reach;
    assert CoversState(cover, Hypothesis(), 2);
    var p :| p in cover && Hypothesis().Reach(p) == 2;
    assert Among(p, cover);
    CoverWords(cover, p);
    NotShorter(p);
    assert Hypothesis().Over("ab") && Among(['a'], EXPERIMENTS) && "baaba" == p + "ab" + ['a'];
  }

  lemma NotShorter(p: Word)
    requires Hypothesis().Reach(p) == 2 && |p| <= 2 && (p != [] ==> p[0] == 'b')
    ensures |p| == 2
  {
    hide Incumbent, Hypothesis, Mealy.Reach;
    ReachesNothing();
    if |p| == 1 {
      ShortReach([], 'b', 0);
      assert p == [] + ['b'];
    }
  }

  /** The first table of the learner has these access words and experiments. */
  lemma FirstTable()
    ensures Incumbent().Total() && Letters(Incumbent().alphabet) == EXPERIMENTS
    ensures ClosedUp(Incumbent(), [[]], EXPERIMENTS, ACCESS) && AccessWords(Incumbent(), ACCESS, EXPERIMENTS)
    ensures TableDerived(Hypothesis(), Incumbent(), ACCESS, EXPERIMENTS)
  {
    hide *;
    Machines();
    BothTotal();
    TableGrows();
    TableCloses();
    TableIsTable();
    FromTable();
    ClosedUpIs();
  }

  lemma ClosedUpIs()
    ensures Grows(Incumbent(), [[]], EXPERIMENTS, ACCESS) && Closed(Incumbent(), ACCESS, EXPERIMENTS)
      ==> ClosedUp(Incumbent(), [[]], EXPERIMENTS, ACCESS)
  {
    hide Incumbent, Grows, Closed;
  }

  lemma BothDisagree()
    ensures Disagrees(Hypothesis(), Incumbent(), "aaba") && Disagrees(Hypothesis(), Incumbent(), "baaba")
  {
    Machines();
    BothWords();
    hide Incumbent, Hypothesis, Mealy.Run;
  }

  /** NOT THE SHORTEST DISAGREEMENT. Whatever state cover the breadth-first search finds for the hypothesis
      of the first table, with state bound 4 all tests of at most four inputs pass and "baaba" fails, while
      "aaba", which is no test, is answered differently too. */
  lemma ShorterUntested(cover: seq<Word>)
    requires Covers(cover, Hypothesis()) && ShortestCover(cover, Hypothesis())
    ensures Depth(4, Hypothesis().size) == 2
    ensures FirstFailing(Hypothesis(), Incumbent(), cover, EXPERIMENTS, 2, "baaba")
    ensures Disagrees(Hypothesis(), Incumbent(), "aaba")
    ensures !FindsShortest(Hypothesis(), Incumbent(), cover, EXPERIMENTS, 2)
  {
    Machines();
    hide *;
    TwoDeep();
    LongTest(cover);
    BothDisagree();
    forall s | IsTest(s, Hypothesis(), cover, EXPERIMENTS, 2) && |s| < 5 ensures Hypothesis().Run(s) == Incumbent().Run(s) {
      ShortTestsPass(cover, s);
    }
    IsFirstFailing(Hypothesis(), Incumbent(), cover, EXPERIMENTS, 2, "baaba");
    FindsLonger(Hypothesis(), Incumbent(), cover, EXPERIMENTS, 2, "baaba", "aaba");
  }

  lemma TwoDeep()
    ensures Depth(4, 3) == 2
  {
  }

  lemma IsFirstFailing(h: Mealy, inc: Mealy, cover: seq<Word>, ws: seq<Word>, depth: nat, t: Word)
    requires IsTest(t, h, cover, ws, depth) && Disagrees(h, inc, t)
    requires forall s | IsTest(s, h, cover, ws, depth) && |s| < |t| :: h.Run(s) == inc.Run(s)
    ensures FirstFailing(h, inc, cover, ws, depth, t)
  {
    hide IsTest, Mealy.Run;
  }

  lemma FindsLonger(h: Mealy, inc: Mealy, cover: seq<Word>, ws: seq<Word>, depth: nat, t: Word, u: Word)
    requires FirstFailing(h, inc, cover, ws, depth, t) && Disagrees(h, inc, u) && |u| < |t|
    ensures !FindsShortest(h, inc, cover, ws, depth)
  {
    hide FirstFailing, Disagrees;
  }
}
