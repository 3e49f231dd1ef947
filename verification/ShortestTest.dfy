/** Exactly when the counterexample of `w_method_ce` in `buildloop/lstar.py` is a shortest disagreement. */
module ShortestTest {
  import opened Order
  import opened Automata
  import opened WMethod
  import opened Observations
  import opened ConformanceTest

  ghost predicate Disagrees(h: Mealy, inc: Mealy, w: Word) {
    h.Over(w) && h.Run(w) != inc.Run(w)
  }

  /** What `w_method_ce` returns: a test that fails, and no shorter test fails. */
  ghost predicate FirstFailing(h: Mealy, inc: Mealy, cover: seq<Word>, ws: seq<Word>, depth: nat, t: Word) {
    && IsTest(t, h, cover, ws, depth) && Disagrees(h, inc, t)
    && forall s | IsTest(s, h, cover, ws, depth) && |s| < |t| :: !Disagrees(h, inc, s)
  }

  ghost predicate FindsShortest(h: Mealy, inc: Mealy, cover: seq<Word>, ws: seq<Word>, depth: nat) {
    forall t, u | FirstFailing(h, inc, cover, ws, depth, t) && Disagrees(h, inc, u) :: |t| <= |u|
  }

  /** The answers to these words are known and the hypothesis gives them. */
  ghost predicate Agrees(h: Mealy, inc: Mealy, known: set<Word>) {
    forall w | w in known :: h.Run(w) == inc.Run(w)
  }

  /** No word with a known answer begins with `w`. */
  predicate Open(w: Word, known: set<Word>) {
    forall k | k in known :: !(w <= k)
  }

  /** Every word shorter than some test is a test, apart from what the known answers settle. */
  ghost predicate NoGap(h: Mealy, cover: seq<Word>, ws: seq<Word>, depth: nat, known: set<Word>) {
    forall u, t | Gap(h, cover, ws, depth, known, u, t) :: IsTest(u, h, cover, ws, depth)
  }

  ghost predicate Gap(h: Mealy, cover: seq<Word>, ws: seq<Word>, depth: nat, known: set<Word>, u: Word, t: Word) {
    && h.Over(u) && u != [] && IsTest(t, h, cover, ws, depth) && |u| < |t|
    && Open(u, known) && Open(t, known)
  }

  // ---------------------------------------------------------------- an incumbent that differs at two words

  /** Where the incumbent is: on the way along `u` or `t`, or in a state of the hypothesis. */
  datatype Node = On(word: Word) | Off(state: nat)

  predicate OnTrack(u: Word, t: Word, w: Word) {
    w <= u || w <= t
  }

  function NodeOf(h: Mealy, u: Word, t: Word, w: Word): Node {
    if OnTrack(u, t, w) then On(w) else Off(h.Reach(w))
  }

  function StepNode(h: Mealy, u: Word, t: Word, n: Node, a: Symbol): Node {
    match n
    case On(w) => NodeOf(h, u, t, w + [a])
    case Off(q) => Off(h.Next(q, a))
  }

  /** The answer of the hypothesis, except for the last inputs of `u` and `t`. */
  function EmitNode(h: Mealy, u: Word, t: Word, n: Node, a: Symbol): Output {
    match n
    case On(w) => if w + [a] == u || w + [a] == t then "!" + h.Emit(h.Reach(w), a) else h.Emit(h.Reach(w), a)
    case Off(q) => h.Emit(q, a)
  }

  ghost function Prefixes(w: Word): set<Node> {
    set i | 0 <= i <= |w| :: On(w[..i])
  }

  ghost function Nodes(h: Mealy, u: Word, t: Word): set<Node> {
    Prefixes(u) + Prefixes(t) + set q: nat | q < h.size :: Off(q)
  }

  ghost predicate IsNode(h: Mealy, u: Word, t: Word, n: Node) {
    match n
    case On(w) => OnTrack(u, t, w)
    case Off(q) => q < h.size
  }

  lemma NodesAre(h: Mealy, u: Word, t: Word, n: Node)
    ensures n in Nodes(h, u, t) <==> IsNode(h, u, t, n)
  {
    match n
    case On(w) =>
      PrefixesAre(u, w);
      PrefixesAre(t, w);
    case Off(q) =>
  }

  lemma PrefixesAre(u: Word, w: Word)
    ensures On(w) in Prefixes(u) <==> w <= u
  {
    if w <= u {
      assert w == u[..|w|];
    }
  }

  ghost function IndexOf(nodes: seq<Node>, n: Node): (i: nat)
    requires n in nodes
    ensures i < |nodes| && nodes[i] == n
  {
    var i: nat :| i < |nodes| && nodes[i] == n;
    i
  }

  ghost function IndexOr0(nodes: seq<Node>, n: Node): nat {
    if n in nodes then IndexOf(nodes, n) else 0
  }

  ghost function Cells(size: nat, alphabet: seq<Symbol>): set<(nat, Symbol)> {
    set q: nat, a: Symbol | q < size && a in alphabet :: (q, a)
  }

  /** The states are the nodes, in some order. */
  ghost function Differing(h: Mealy, u: Word, t: Word): Mealy {
    var nodes := Listing(Nodes(h, u, t));
    Mealy(|nodes|, IndexOr0(nodes, On([])), h.alphabet,
          map c | c in Cells(|nodes|, h.alphabet) && c.0 < |nodes| :: IndexOr0(nodes, StepNode(h, u, t, nodes[c.0], c.1)),
          map c | c in Cells(|nodes|, h.alphabet) && c.0 < |nodes| :: EmitNode(h, u, t, nodes[c.0], c.1))
  }

  lemma InListing(h: Mealy, u: Word, t: Word, n: Node)
    ensures n in Listing(Nodes(h, u, t)) <==> IsNode(h, u, t, n)
  {
    hide Nodes, IsNode;
    NodesAre(h, u, t, n);
    SameMembers(Listing(Nodes(h, u, t)), Nodes(h, u, t));
  }

  lemma StepStays(h: Mealy, u: Word, t: Word, n: Node, a: Symbol)
    requires h.Total() && h.Over(u) && h.Over(t) && IsNode(h, u, t, n) && a in h.alphabet
    ensures IsNode(h, u, t, StepNode(h, u, t, n, a))
  {
    hide Mealy.Outputs, Mealy.After;
    match n
    case On(w) =>
      assert h.Over(w + [a]);
      AfterInRange(h, h.initial, w + [a]);
    case Off(q) =>
  }

  /** What its tables say. */
  ghost predicate Runs(h: Mealy, u: Word, t: Word, inc: Mealy, nodes: seq<Node>) {
    && inc.alphabet == h.alphabet && inc.size == |nodes| && inc.initial < |nodes| && nodes[inc.initial] == On([])
    && forall q: nat, a | q < |nodes| && a in h.alphabet :: RunsAt(h, u, t, inc, nodes, q, a)
  }

  ghost predicate RunsAt(h: Mealy, u: Word, t: Word, inc: Mealy, nodes: seq<Node>, q: nat, a: Symbol)
    requires q < |nodes|
  {
    && (q, a) in inc.delta && (q, a) in inc.out
    && inc.delta[(q, a)] < |nodes| && nodes[inc.delta[(q, a)]] == StepNode(h, u, t, nodes[q], a)
    && inc.out[(q, a)] == EmitNode(h, u, t, nodes[q], a)
  }

  lemma DifferingRuns(h: Mealy, u: Word, t: Word)
    requires h.Total() && h.Over(u) && h.Over(t)
    ensures Runs(h, u, t, Differing(h, u, t), Listing(Nodes(h, u, t)))
  {
    var nodes, inc := Listing(Nodes(h, u, t)), Differing(h, u, t);
    InListing(h, u, t, On([]));
    hide Nodes, StepNode, EmitNode, Mealy.Total, Mealy.Over;
    forall q: nat, a | q < |nodes| && a in h.alphabet ensures RunsAt(h, u, t, inc, nodes, q, a) {
      assert (q, a) in Cells(|nodes|, h.alphabet);
      InListing(h, u, t, nodes[q]);
      StepStays(h, u, t, nodes[q], a);
      InListing(h, u, t, StepNode(h, u, t, nodes[q], a));
    }
  }

  lemma RunsTotal(h: Mealy, u: Word, t: Word, inc: Mealy, nodes: seq<Node>)
    requires Runs(h, u, t, inc, nodes)
    ensures inc.Total()
  {
    hide StepNode, EmitNode;
    forall q: nat, a: Symbol | q < inc.size && a in inc.alphabet
      ensures (q, a) in inc.delta && inc.delta[(q, a)] < inc.size && (q, a) in inc.out
    {
      assert RunsAt(h, u, t, inc, nodes, q, a);
    }
  }

  lemma {:induction false} ReachesNode(h: Mealy, u: Word, t: Word, inc: Mealy, nodes: seq<Node>, w: Word)
    requires Runs(h, u, t, inc, nodes) && h.Over(w)
    ensures inc.Reach(w) < |nodes| && nodes[inc.Reach(w)] == NodeOf(h, u, t, w)
    decreases |w|
  {
    hide Mealy.After, EmitNode;
    if w == [] {
      NothingRead(inc);
    } else {
      var v, a := w[..|w| - 1], w[|w| - 1];
      assert w == v + [a];
      ReachesNode(h, u, t, inc, nodes, v);
      StepReach(inc, v, a);
      StepReach(h, v, a);
      assert RunsAt(h, u, t, inc, nodes, inc.Reach(v), a);
    }
  }

  lemma NothingRead(m: Mealy)
    ensures m.Reach([]) == m.initial && m.Run([]) == []
  {
  }

  lemma RunLast(m: Mealy, v: Word, a: Symbol)
    ensures m.Run(v + [a]) == m.Run(v) + [m.Emit(m.Reach(v), a)]
  {
    OutputsConcat(m, m.initial, v, [a]);
    assert m.Outputs(m.Reach(v), [a]) == [m.Emit(m.Reach(v), a)] + m.Outputs(m.Next(m.Reach(v), a), []);
  }

  /** It answers a word as the hypothesis does unless the word begins with one of the two. */
  lemma {:induction false} DiffersExactly(h: Mealy, u: Word, t: Word, inc: Mealy, nodes: seq<Node>, w: Word)
    requires Runs(h, u, t, inc, nodes) && h.Over(w) && u != [] && t != []
    ensures inc.Run(w) == h.Run(w) <==> !(u <= w) && !(t <= w)
    decreases |w|
  {
    hide Mealy.After, Mealy.Outputs, Runs;
    if w == [] {
      NothingRead(inc);
      NothingRead(h);
    } else {
      var v, a := w[..|w| - 1], w[|w| - 1];
      assert w == v + [a];
      DiffersExactly(h, u, t, inc, nodes, v);
      RunLast(inc, v, a);
      RunLast(h, v, a);
      EmitsLast(h, u, t, inc, nodes, v, a);
      PrefixOfLast(u, v, a);
      PrefixOfLast(t, v, a);
      LastApartEqual(inc.Run(v), inc.Emit(inc.Reach(v), a), h.Run(v), h.Emit(h.Reach(v), a));
      assert h.Over(v);
    }
  }

  lemma LastApartEqual(a: seq<Output>, x: Output, b: seq<Output>, y: Output)
    requires |a| == |b|
    ensures a + [x] == b + [y] <==> a == b && x == y
  {
    assert a == (a + [x])[..|a|] && b == (b + [y])[..|b|];
    assert x == (a + [x])[|a|] && y == (b + [y])[|b|];
  }

  lemma PrefixOfLast(u: Word, v: Word, a: Symbol)
    ensures u <= v + [a] <==> u <= v || u == v + [a]
  {
  }

  lemma EmitsLast(h: Mealy, u: Word, t: Word, inc: Mealy, nodes: seq<Node>, v: Word, a: Symbol)
    requires Runs(h, u, t, inc, nodes) && h.Over(v) && a in h.alphabet
    ensures inc.Emit(inc.Reach(v), a) == h.Emit(h.Reach(v), a) <==> v + [a] != u && v + [a] != t
  {
    hide Mealy.After, Mealy.Outputs, StepNode;
    ReachesNode(h, u, t, inc, nodes, v);
    assert RunsAt(h, u, t, inc, nodes, inc.Reach(v), a);
    var o := h.Emit(h.Reach(v), a);
    assert |"!" + o| != |o|;
    assert v + [a] == u ==> v <= u;
    assert v + [a] == t ==> v <= t;
  }

  // ---------------------------------------------------------------- the condition

  /** Machines that agree on a word agree on how it begins. */
  lemma AgreeOnPrefix(h: Mealy, inc: Mealy, u: Word, w: Word)
    requires h.Run(w) == inc.Run(w) && u <= w
    ensures h.Run(u) == inc.Run(u)
  {
    OutputsConcat(h, h.initial, u, w[|u|..]);
    OutputsConcat(inc, inc.initial, u, w[|u|..]);
    assert w == u + w[|u|..];
    assert h.Run(u) == h.Run(w)[..|u|] && inc.Run(u) == inc.Run(w)[..|u|];
  }

  lemma DisagreementIsOpen(h: Mealy, inc: Mealy, known: set<Word>, w: Word)
    requires Agrees(h, inc, known) && Disagrees(h, inc, w)
    ensures Open(w, known) && w != []
  {
    hide Mealy.Outputs;
    forall k | k in known ensures !(w <= k) {
      if w <= k {
        AgreeOnPrefix(h, inc, w, k);
      }
    }
    NothingRead(h);
    NothingRead(inc);
  }

  lemma NoGapFinds(h: Mealy, inc: Mealy, cover: seq<Word>, ws: seq<Word>, depth: nat, known: set<Word>)
    requires NoGap(h, cover, ws, depth, known) && Agrees(h, inc, known)
    ensures FindsShortest(h, inc, cover, ws, depth)
  {
    hide IsTest, Open, Agrees, Disagrees;
    forall t, u | FirstFailing(h, inc, cover, ws, depth, t) && Disagrees(h, inc, u) ensures |t| <= |u| {
      DisagreementIsOpen(h, inc, known, t);
      DisagreementIsOpen(h, inc, known, u);
      assert h.Over(u) by {
        OverIfDisagrees(h, inc, u);
      }
      assert |u| < |t| ==> Gap(h, cover, ws, depth, known, u, t);
    }
  }

  lemma OverIfDisagrees(h: Mealy, inc: Mealy, u: Word)
    requires Disagrees(h, inc, u)
    ensures h.Over(u)
  {
  }

  /** Of the tests that fail, one is shortest. */
  lemma {:induction false} SomeFirstFailing(h: Mealy, inc: Mealy, cover: seq<Word>, ws: seq<Word>, depth: nat, t: Word)
      returns (s: Word)
    requires IsTest(t, h, cover, ws, depth) && Disagrees(h, inc, t)
    ensures FirstFailing(h, inc, cover, ws, depth, s)
    decreases |t|
  {
    hide IsTest, Disagrees;
    if FirstFailing(h, inc, cover, ws, depth, t) {
      s := t;
    } else {
      var shorter :| IsTest(shorter, h, cover, ws, depth) && |shorter| < |t| && Disagrees(h, inc, shorter);
      s := SomeFirstFailing(h, inc, cover, ws, depth, shorter);
    }
  }

  lemma TestIsOver(h: Mealy, cover: seq<Word>, ws: seq<Word>, depth: nat, t: Word)
    requires IsTest(t, h, cover, ws, depth) && forall w | w in cover || w in ws :: h.Over(w)
    ensures h.Over(t)
  {
    hide Mealy.Over;
    var p, m, w :| Among(p, cover) && h.Over(m) && |m| <= depth && Among(w, ws) && t == p + m + w;
    OverConcat(h, p, m);
    OverConcat(h, p + m, w);
  }

  /** Where there is a gap, the incumbent that differs at the two words is answered with too long a test. */
  lemma GapMisleads(h: Mealy, cover: seq<Word>, ws: seq<Word>, depth: nat, known: set<Word>, u: Word, t: Word)
      returns (inc: Mealy)
    requires h.Total() && (forall w | w in cover || w in ws || w in known :: h.Over(w))
    requires Gap(h, cover, ws, depth, known, u, t) && !IsTest(u, h, cover, ws, depth)
    ensures inc.Total() && inc.alphabet == h.alphabet && Agrees(h, inc, known)
    ensures !FindsShortest(h, inc, cover, ws, depth)
  {
    TestIsOver(h, cover, ws, depth, t);
    inc := Differing(h, u, t);
    var nodes := Listing(Nodes(h, u, t));
    DifferingRuns(h, u, t);
    RunsTotal(h, u, t, inc, nodes);
    assert inc.alphabet == h.alphabet;
    hide IsTest, Runs, Differing, Nodes, Mealy.Total, Mealy.Over, Mealy.Run;
    forall k | k in known ensures h.Run(k) == inc.Run(k) {
      DiffersExactly(h, u, t, inc, nodes, k);
    }
    DiffersExactly(h, u, t, inc, nodes, t);
    DiffersExactly(h, u, t, inc, nodes, u);
    var s := SomeFirstFailing(h, inc, cover, ws, depth, t);
    DiffersExactly(h, u, t, inc, nodes, s);
    assert |s| == |u| && u <= s ==> s == u;
    assert Disagrees(h, inc, u) && |u| < |s|;
  }

  /** THE SHORTEST DISAGREEMENT, EXACTLY. Take a hypothesis, the words its tests are made of, and words with
      known answers. What `w_method_ce` returns is a shortest disagreement for every incumbent with these
      answers if and only if every word shorter than some test is a test, where words and tests that known
      answers begin with do not matter. */
  lemma ShortestExactly(h: Mealy, cover: seq<Word>, ws: seq<Word>, depth: nat, known: set<Word>)
    requires h.Total() && (forall w | w in cover || w in ws || w in known :: h.Over(w))
    ensures (forall inc: Mealy | inc.Total() && inc.alphabet == h.alphabet && Agrees(h, inc, known) ::
        FindsShortest(h, inc, cover, ws, depth))
      <==> NoGap(h, cover, ws, depth, known)
  {
    hide IsTest, FindsShortest, Agrees, Mealy.Total, Mealy.Over, Gap;
    if NoGap(h, cover, ws, depth, known) {
      forall inc: Mealy | inc.Total() && inc.alphabet == h.alphabet && Agrees(h, inc, known)
        ensures FindsShortest(h, inc, cover, ws, depth)
      {
        NoGapFinds(h, inc, cover, ws, depth, known);
      }
    } else {
      var u, t :| Gap(h, cover, ws, depth, known, u, t) && !IsTest(u, h, cover, ws, depth);
      var inc := GapMisleads(h, cover, ws, depth, known, u, t);
    }
  }

  // ---------------------------------------------------------------- what a table knows

  /** The words the cells of a table are about. */
  ghost function TableWords(alphabet: seq<Symbol>, S: seq<Word>, E: seq<Word>): set<Word> {
    (set s, e | s in S && e in E :: s + e) + (set s, a, e | s in S && a in alphabet && e in E :: s + [a] + e)
  }

  /** On the access words the hypothesis answers as the incumbent does. */
  lemma {:induction false} AnswersAccess(h: Mealy, inc: Mealy, S: seq<Word>, E: seq<Word>, k: nat)
    requires AccessWords(inc, S, E) && TableDerived(h, inc, S, E) && k < |S|
    ensures h.Run(S[k]) == inc.Run(S[k])
    decreases |S[k]|
  {
    hide RowOf, AccessWords, TableDerived, Mealy.After, Mealy.Outputs;
    var j, a := Parent(inc, S, E, k);
    if S[k] == [] {
      NothingRead(h);
      NothingRead(inc);
    } else {
      AnswersAccess(h, inc, S, E, j);
      LastOfAccess(h, inc, S, E, j, a, k);
      AnswersStep(h, inc, S, E, j, a);
    }
  }

  lemma LastOfAccess(h: Mealy, inc: Mealy, S: seq<Word>, E: seq<Word>, j: nat, a: Symbol, k: nat)
    requires AccessWords(inc, S, E) && j < |S| && k < |S| && S[k] == S[j] + [a]
    ensures a in inc.alphabet
  {
    assert S[k] in S && S[k][|S[k]| - 1] == a;
  }

  lemma AnswersStep(h: Mealy, inc: Mealy, S: seq<Word>, E: seq<Word>, k: nat, a: Symbol)
    requires AccessWords(inc, S, E) && TableDerived(h, inc, S, E) && k < |S| && a in inc.alphabet
    requires h.Run(S[k]) == inc.Run(S[k])
    ensures h.Run(S[k] + [a]) == inc.Run(S[k] + [a])
  {
    hide RowOf, AccessWords, Mealy.After, Mealy.Outputs;
    ReachesOwnState(h, inc, S, E, k);
    RunLast(h, S[k], a);
    RunLast(inc, S[k], a);
  }

  /** A cell behind an access word, and behind one and an input. */
  lemma AnswersCells(h: Mealy, inc: Mealy, S: seq<Word>, E: seq<Word>, k: nat, a: Symbol, e: Word)
    requires Experiments(inc, E) && AccessWords(inc, S, E) && TableDerived(h, inc, S, E)
    requires k < |S| && a in inc.alphabet && e in E
    ensures h.Run(S[k] + e) == inc.Run(S[k] + e) && h.Run(S[k] + [a] + e) == inc.Run(S[k] + [a] + e)
  {
    hide RowOf, AccessWords, Experiments, Mealy.After, Mealy.Outputs;
    AnswersAccess(h, inc, S, E, k);
    AnswersStep(h, inc, S, E, k, a);
    ReachesOwnState(h, inc, S, E, k);
    ReproducesCells(h, inc, S, E, k, e);
    StepReach(h, S[k], a);
    var q := h.Next(k, a);
    ReproducesCells(h, inc, S, E, q, e);
    CellFromRow(inc, S[q], S[k] + [a], E, e);
    OutputsConcat(h, h.initial, S[k], e);
    OutputsConcat(inc, inc.initial, S[k], e);
    OutputsConcat(h, h.initial, S[k] + [a], e);
    OutputsConcat(inc, inc.initial, S[k] + [a], e);
  }

  lemma TableIsKnown(h: Mealy, inc: Mealy, S: seq<Word>, E: seq<Word>)
    requires Experiments(inc, E) && AccessWords(inc, S, E) && TableDerived(h, inc, S, E)
    ensures Agrees(h, inc, TableWords(inc.alphabet, S, E))
  {
    hide AccessWords, TableDerived, Mealy.Run;
    forall w | w in TableWords(inc.alphabet, S, E) ensures h.Run(w) == inc.Run(w) {
      if s, e :| s in S && e in E && w == s + e {
        var k: nat :| k < |S| && S[k] == s;
        LetterOf(inc, E, e);
        AnswersCells(h, inc, S, E, k, e[0], e);
      } else {
        var s, a, e :| s in S && a in inc.alphabet && e in E && w == s + [a] + e;
        var k: nat :| k < |S| && S[k] == s;
        AnswersCells(h, inc, S, E, k, a, e);
      }
    }
  }

  lemma LetterOf(inc: Mealy, E: seq<Word>, e: Word)
    requires Experiments(inc, E) && e in E
    ensures e != [] && e[0] in inc.alphabet
  {
  }

  /** Equal answers on the cells are equal rows. */
  lemma SameRow(inc: Mealy, inc': Mealy, u: Word, E: seq<Word>)
    requires forall e | e in E :: inc.Run(u + e) == inc'.Run(u + e)
    ensures RowOf(inc, u, E) == RowOf(inc', u, E)
  {
    forall i | 0 <= i < |E| ensures Cell(inc, u, E[i]) == Cell(inc', u, E[i]) {
      assert E[i] in E;
      OutputsConcat(inc, inc.initial, u, E[i]);
      OutputsConcat(inc', inc'.initial, u, E[i]);
    }
  }

  /** The same rows on the access words and one input behind them. */
  ghost predicate SameTable(inc: Mealy, inc': Mealy, S: seq<Word>, E: seq<Word>) {
    && (forall s | s in S :: RowOf(inc, s, E) == RowOf(inc', s, E))
    && (forall s, a | Extension(inc, s, a, S) :: RowOf(inc, s + [a], E) == RowOf(inc', s + [a], E))
  }

  lemma SameAnswersSameTable(h: Mealy, inc: Mealy, inc': Mealy, S: seq<Word>, E: seq<Word>)
    requires Agrees(h, inc, TableWords(inc.alphabet, S, E)) && Agrees(h, inc', TableWords(inc.alphabet, S, E))
    ensures SameTable(inc, inc', S, E)
  {
    hide RowOf, Mealy.Run;
    var known := TableWords(inc.alphabet, S, E);
    forall s | s in S ensures RowOf(inc, s, E) == RowOf(inc', s, E) {
      forall e | e in E ensures inc.Run(s + e) == inc'.Run(s + e) {
        assert s + e in known;
      }
      SameRow(inc, inc', s, E);
    }
    forall s, a | Extension(inc, s, a, S) ensures RowOf(inc, s + [a], E) == RowOf(inc', s + [a], E) {
      forall e | e in E ensures inc.Run(s + [a] + e) == inc'.Run(s + [a] + e) {
        assert s + [a] + e in known;
      }
      SameRow(inc, inc', s + [a], E);
    }
  }

  lemma SameTableAccess(inc: Mealy, inc': Mealy, S: seq<Word>, E: seq<Word>)
    requires SameTable(inc, inc', S, E) && inc'.alphabet == inc.alphabet && AccessWords(inc, S, E)
    ensures AccessWords(inc', S, E)
  {
    hide RowOf;
    forall i, j | 0 <= i < j < |S| ensures RowOf(inc', S[i], E) != RowOf(inc', S[j], E) {
      assert S[i] in S && S[j] in S;
    }
    assert forall w :: inc'.Over(w) <==> inc.Over(w);
  }

  lemma SameTableDerived(h: Mealy, inc: Mealy, inc': Mealy, S: seq<Word>, E: seq<Word>)
    requires SameTable(inc, inc', S, E) && inc'.alphabet == inc.alphabet
    requires HasLetters(E, inc.alphabet) && TableDerived(h, inc, S, E)
    ensures TableDerived(h, inc', S, E)
  {
    hide RowOf, Mealy.Total, Mealy.Reach;
    forall k: nat, a | k < |S| && a in inc.alphabet
      ensures h.Next(k, a) < |S|
        && RowOf(inc', S[h.Next(k, a)], E) == RowOf(inc', S[k] + [a], E)
        && h.Emit(k, a) == inc'.Emit(inc'.Reach(S[k]), a)
    {
      assert Extension(inc, S[k], a, S) && S[h.Next(k, a)] in S;
      SameEmit(inc, inc', S[k], E, a);
    }
  }

  lemma SameEmit(inc: Mealy, inc': Mealy, s: Word, E: seq<Word>, a: Symbol)
    requires RowOf(inc, s, E) == RowOf(inc', s, E) && [a] in E
    ensures inc.Emit(inc.Reach(s), a) == inc'.Emit(inc'.Reach(s), a)
  {
    var i :| 0 <= i < |E| && E[i] == [a];
    assert RowOf(inc, s, E)[i] == RowOf(inc', s, E)[i];
    assert inc.Outputs(inc.Reach(s), [a])[0] == inc.Emit(inc.Reach(s), a);
    assert inc'.Outputs(inc'.Reach(s), [a])[0] == inc'.Emit(inc'.Reach(s), a);
  }

  /** An incumbent has the answers of the table if and only if the table, with this hypothesis, is its. */
  lemma KnownByTable(h: Mealy, inc: Mealy, inc': Mealy, S: seq<Word>, E: seq<Word>)
    requires Experiments(inc, E) && AccessWords(inc, S, E) && TableDerived(h, inc, S, E)
    requires inc'.alphabet == inc.alphabet
    ensures Agrees(h, inc', TableWords(inc.alphabet, S, E)) <==> AccessWords(inc', S, E) && TableDerived(h, inc', S, E)
  {
    SameExperiments(inc, inc', E);
    hide RowOf, AccessWords, TableDerived, Experiments, Agrees, TableWords, SameTable;
    TableIsKnown(h, inc, S, E);
    if Agrees(h, inc', TableWords(inc.alphabet, S, E)) {
      SameAnswersSameTable(h, inc, inc', S, E);
      SameTableAccess(inc, inc', S, E);
      SameTableDerived(h, inc, inc', S, E);
    }
    if AccessWords(inc', S, E) && TableDerived(h, inc', S, E) {
      TableIsKnown(h, inc', S, E);
    }
  }

  lemma SameExperiments(inc: Mealy, inc': Mealy, E: seq<Word>)
    requires Experiments(inc, E) && inc'.alphabet == inc.alphabet
    ensures Experiments(inc', E) && HasLetters(E, inc.alphabet)
  {
    assert forall w :: inc'.Over(w) <==> inc.Over(w);
  }

  lemma TableWordsOver(h: Mealy, inc: Mealy, S: seq<Word>, E: seq<Word>)
    requires Experiments(inc, E) && AccessWords(inc, S, E) && h.alphabet == inc.alphabet
    ensures forall w | w in TableWords(inc.alphabet, S, E) || w in E :: h.Over(w)
  {
    hide RowOf, Mealy.Over;
    assert forall w :: h.Over(w) <==> inc.Over(w) by {
      SameOver(h, inc);
    }
    forall s, a, e | s in S && a in inc.alphabet && e in E ensures h.Over(s + e) && h.Over(s + [a] + e) {
      OneOver(h, a);
      OverConcat(h, s, e);
      OverConcat(h, s, [a]);
      OverConcat(h, s + [a], e);
    }
    forall s, e | s in S && e in E ensures h.Over(s + e) {
      OverConcat(h, s, e);
    }
  }

  lemma SameOver(h: Mealy, inc: Mealy)
    requires h.alphabet == inc.alphabet
    ensures forall w :: h.Over(w) <==> inc.Over(w)
  {
  }

  lemma OneOver(h: Mealy, a: Symbol)
    requires a in h.alphabet
    ensures h.Over([a])
  {
  }

  /** THE SAME FOR A TABLE OF THE LEARNER. For every incumbent from which this table and this hypothesis may
      come the counterexample is a shortest disagreement, if and only if every word shorter than some test
      is a test, leaving aside what cells of the table begin with. */
  lemma ShortestForTable(h: Mealy, inc: Mealy, S: seq<Word>, E: seq<Word>, cover: seq<Word>, depth: nat)
    requires Experiments(inc, E) && AccessWords(inc, S, E) && TableDerived(h, inc, S, E)
    requires forall w | w in cover :: h.Over(w)
    ensures (forall inc': Mealy | inc'.Total() && inc'.alphabet == inc.alphabet
          && AccessWords(inc', S, E) && TableDerived(h, inc', S, E) ::
        FindsShortest(h, inc', cover, E, depth))
      <==> NoGap(h, cover, E, depth, TableWords(inc.alphabet, S, E))
  {
    assert h.Total() && h.alphabet == inc.alphabet;
    TableWordsOver(h, inc, S, E);
    hide RowOf, AccessWords, TableDerived, Experiments, Agrees, TableWords, FindsShortest, NoGap, Mealy.Total, Mealy.Over;
    var known := TableWords(inc.alphabet, S, E);
    ShortestExactly(h, cover, E, depth, known);
    forall inc': Mealy | inc'.alphabet == inc.alphabet
      ensures Agrees(h, inc', known) <==> AccessWords(inc', S, E) && TableDerived(h, inc', S, E)
    {
      KnownByTable(h, inc, inc', S, E);
    }
  }
}
