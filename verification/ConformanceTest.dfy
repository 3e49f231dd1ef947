/** The bounded equivalence oracle of `buildloop/lstar.py`: state cover, middle parts, tests in
    order of length, first disagreement. */
module ConformanceTest {
  import opened Automata
  import opened WMethod
  import opened Order
  import opened Lstar
  import opened Wrappers

  ghost predicate Reachable(h: Mealy, q: nat) {
    exists w :: h.Over(w) && h.Reach(w) == q
  }

  /** The successor has an access word, at most one input longer. */
  ghost predicate StepFound(h: Mealy, access: map<nat, Word>, q: nat, a: Symbol) {
    q in access && h.Next(q, a) in access && |access[h.Next(q, a)]| <= |access[q]| + 1
  }

  /** Each access word reaches its state, and none is longer than `most`. */
  ghost predicate Reaching(h: Mealy, access: map<nat, Word>, most: nat) {
    && h.initial in access && access[h.initial] == []
    && forall q | q in access :: q < h.size && h.Over(access[q]) && h.Reach(access[q]) == q && |access[q]| <= most
  }

  /** The queue holds states of two levels at most, the lower one first. */
  ghost predicate Leveled(access: map<nat, Word>, queue: seq<nat>, level: nat) {
    && (forall q | q in queue :: q in access && level <= |access[q]| <= level + 1)
    && forall i, j | 0 <= i < j < |queue| && queue[i] in access && queue[j] in access :: |access[queue[i]]| <= |access[queue[j]]|
  }

  /** Breadth-first access words found so far: every state no longer queued has all its successors. */
  ghost predicate Explored(h: Mealy, access: map<nat, Word>, queue: seq<nat>, level: nat) {
    && Reaching(h, access, level + 1) && Leveled(access, queue, level)
    && forall q: nat, a | q in access && q !in queue && a in h.alphabet :: StepFound(h, access, q, a)
  }

  lemma {:induction false} ExploredAll(h: Mealy, access: map<nat, Word>, level: nat, w: Word)
    requires Explored(h, access, [], level) && h.Over(w)
    ensures h.Reach(w) in access && |access[h.Reach(w)]| <= |w|
    decreases |w|
  {
    if w != [] {
      var v, a := w[..|w| - 1], w[|w| - 1];
      assert w == v + [a];
      ExploredAll(h, access, level, v);
      StepReach(h, v, a);
      assert StepFound(h, access, h.Reach(v), a);
    }
  }

  /** One word for each state, and none that could be replaced by a shorter one. */
  ghost predicate ShortestCover(cover: seq<Word>, h: Mealy) {
    && (forall w | w in cover :: h.Over(w))
    && (forall i, j | 0 <= i < j < |cover| :: h.Reach(cover[i]) != h.Reach(cover[j]))
    && forall w, v | Among(w, cover) && h.Over(v) && h.Reach(v) == h.Reach(w) :: |w| <= |v|
  }

  /** The words of the cover, one per state reached. */
  ghost predicate Lists(cover: seq<Word>, access: map<nat, Word>) {
    && (forall q | q in access :: access[q] in cover)
    && |cover| == |access|
    && (forall w | w in cover :: exists q :: q in access && access[q] == w)
  }

  lemma ListsInitial(q: nat)
    ensures Lists([[]], map[q := []])
  {
    var access: map<nat, Word> := map[q := []];
    assert q in access && access[q] == [];
    assert |access| == |access.Keys| && access.Keys == {q};
  }

  lemma ListsOneMore(cover: seq<Word>, access: map<nat, Word>, q: nat, w: Word)
    requires Lists(cover, access) && q !in access
    ensures Lists(cover + [w], access[q := w])
  {
    var access' := access[q := w];
    assert |access'| == |access'.Keys| && access'.Keys == access.Keys + {q} && |access| == |access.Keys|;
    forall v | v in cover + [w] ensures exists p :: p in access' && access'[p] == v {
      if v in cover {
        var p :| p in access && access[p] == v;
        assert p in access' && access'[p] == v;
      } else {
        assert q in access' && access'[q] == v;
      }
    }
  }

  /** `_state_cover`: breadth-first search from the initial state. */
  method StateCover(h: Mealy) returns (cover: seq<Word>)
    requires h.Total() && forall q: nat | q < h.size :: Reachable(h, q)
    ensures Covers(cover, h) && ShortestCover(cover, h)
  {
    hide Mealy.Outputs, Lists, Explored;
    ListsInitial(h.initial);
    var access: map<nat, Word> := map[h.initial := []];
    var queue := [h.initial];
    cover := [[]];                             // access.values(), in insertion order
    ghost var level := 0;
    ExploredInitial(h);
    while queue != []
      invariant Explored(h, access, queue, level) && access.Keys <= Below(h.size)
      invariant Lists(cover, access)
      decreases Below(h.size) - access.Keys, |queue|
    {
      access, queue, cover, level := VisitSuccessors(h, access, queue, cover, level);
    }
    ExploredCovers(h, access, level, cover);
  }

  lemma ExploredInitial(h: Mealy)
    requires h.Total()
    ensures Explored(h, map[h.initial := []], [h.initial], 0)
  {
  }

  /** As many words as states: no state is reached by two. */
  lemma EachOnce(h: Mealy, access: map<nat, Word>, level: nat, cover: seq<Word>)
    requires Explored(h, access, [], level) && Lists(cover, access)
    ensures forall i, j | 0 <= i < j < |cover| :: h.Reach(cover[i]) != h.Reach(cover[j])
  {
    hide Mealy.Reach, Mealy.Over;
    forall i, j | 0 <= i < j < |cover| ensures h.Reach(cover[i]) != h.Reach(cover[j]) {
      if h.Reach(cover[i]) == h.Reach(cover[j]) {
        assert cover[i] in cover && cover[j] in cover;
        var q :| q in access && access[q] == cover[i];
        var p :| p in access && access[p] == cover[j];
        assert q == p;
        var rest := cover[..j] + cover[j + 1..];
        forall k | k in access ensures access[k] in rest {
          var n :| 0 <= n < |cover| && cover[n] == access[k];
          if n == j {
            assert rest[i] == cover[i];
          } else if n < j {
            assert rest[n] == cover[n];
          } else {
            assert rest[n - 1] == cover[n];
          }
        }
        Few(h, access, level, rest);
      }
    }
  }

  /** A list with a word for every state reached is at least as long as there are such states. */
  lemma Few(h: Mealy, access: map<nat, Word>, level: nat, words: seq<Word>)
    requires Explored(h, access, [], level) && forall q | q in access :: access[q] in words
    ensures |access| <= |words|
  {
    hide Mealy.Reach, Mealy.Over;
    var keys := Listing(access.Keys);
    SameMembers(keys, access.Keys);
    assert |keys| == |multiset(keys)| == |access.Keys| == |access|;
    ListedOnce(keys, access.Keys);
    var listed := seq(|keys|, i requires 0 <= i < |keys| => access[keys[i]]);
    var members := set w | w in words;
    SetOfSeq(words);
    forall i, j | 0 <= i < j < |listed| ensures listed[i] != listed[j] {
      assert keys[i] in access && keys[j] in access;
    }
    DistinctFit(listed, members);
  }

  lemma {:induction false} SetOfSeq(words: seq<Word>)
    ensures |set w | w in words| <= |words|
  {
    if words == [] {
      assert (set w | w in words) == {};
    } else {
      var init, last := words[..|words| - 1], words[|words| - 1];
      assert words == init + [last];
      SetOfSeq(init);
      assert (set w | w in words) == (set w | w in init) + {last};
    }
  }

  lemma ListedOnce(keys: seq<nat>, s: set<nat>)
    requires multiset(keys) == multiset(s)
    ensures forall i, j | 0 <= i < j < |keys| :: keys[i] != keys[j]
  {
    forall i, j | 0 <= i < j < |keys| ensures keys[i] != keys[j] {
      assert multiset(s)[keys[i]] <= 1;
      if keys[i] == keys[j] {
        Twice(keys, i, j);
      }
    }
  }

  lemma Twice(keys: seq<nat>, i: nat, j: nat)
    requires i < j < |keys| && keys[i] == keys[j]
    ensures multiset(keys)[keys[i]] >= 2
  {
    assert keys == keys[..i] + [keys[i]] + keys[i + 1..j] + [keys[j]] + keys[j + 1..];
  }

  lemma ExploredCovers(h: Mealy, access: map<nat, Word>, level: nat, cover: seq<Word>)
    requires Explored(h, access, [], level) && Lists(cover, access)
    requires forall q: nat | q < h.size :: Reachable(h, q)
    ensures Covers(cover, h) && ShortestCover(cover, h)
  {
    forall q: nat | q < h.size ensures CoversState(cover, h, q) {
      assert Reachable(h, q);
      var w :| h.Over(w) && h.Reach(w) == q;
      ExploredAll(h, access, level, w);
      assert access[q] in cover;
    }
    assert access[h.initial] in cover;
    EachOnce(h, access, level, cover);
    forall w, v | Among(w, cover) && h.Over(v) && h.Reach(v) == h.Reach(w) ensures |w| <= |v| {
      var q :| q in access && access[q] == w;
      ExploredAll(h, access, level, v);
    }
  }

  /** While the successors of `q` are visited, the first `i` of them done. */
  ghost predicate Visiting(h: Mealy, access: map<nat, Word>, queue: seq<nat>, q: nat, i: nat) {
    && q in access && Reaching(h, access, |access[q]| + 1) && Leveled(access, queue, |access[q]|)
    && (forall p: nat, a | p in access && p !in queue && p != q && a in h.alphabet :: StepFound(h, access, p, a))
    && (forall j: nat | j < i && j < |h.alphabet| :: StepFound(h, access, q, h.alphabet[j]))
  }

  lemma VisitingStart(h: Mealy, access: map<nat, Word>, queue: seq<nat>, level: nat)
    requires queue != [] && Explored(h, access, queue, level)
    ensures queue[0] in access && Visiting(h, access, queue[1..], queue[0], 0)
  {
    assert queue == [queue[0]] + queue[1..];
    forall p | p in queue[1..] ensures |access[queue[0]]| <= |access[p]| {
      var j :| 0 <= j < |queue[1..]| && queue[1..][j] == p;
      assert queue[j + 1] == p;
    }
  }

  lemma VisitingNew(h: Mealy, access: map<nat, Word>, queue: seq<nat>, q: nat, i: nat)
    requires h.Total() && Visiting(h, access, queue, q, i) && i < |h.alphabet| && h.Next(q, h.alphabet[i]) !in access
    ensures var a := h.alphabet[i];
      var nx := h.Next(q, a);
      Visiting(h, access[nx := access[q] + [a]], queue + [nx], q, i + 1)
  {
    hide Mealy.Reach, Mealy.Over;
    var a := h.alphabet[i];
    var nx := h.Next(q, a);
    StepReach(h, access[q], a);
    OverConcat(h, access[q], [a]);
    SingletonOver(h, a);
    var access', queue' := access[nx := access[q] + [a]], queue + [nx];
    forall p: nat, b | p in access' && p !in queue' && p != q && b in h.alphabet ensures StepFound(h, access', p, b) {
      assert p in access && p !in queue;
      assert StepFound(h, access, p, b);
    }
    forall j: nat | j < i + 1 && j < |h.alphabet| ensures StepFound(h, access', q, h.alphabet[j]) {
      assert j < i ==> StepFound(h, access, q, h.alphabet[j]);
    }
  }

  lemma SingletonOver(h: Mealy, a: Symbol)
    requires a in h.alphabet
    ensures h.Over([a])
  {
  }

  lemma VisitingSeen(h: Mealy, access: map<nat, Word>, queue: seq<nat>, q: nat, i: nat)
    requires Visiting(h, access, queue, q, i) && i < |h.alphabet| && h.Next(q, h.alphabet[i]) in access
    ensures Visiting(h, access, queue, q, i + 1)
  {
    forall j: nat | j < i + 1 && j < |h.alphabet| ensures StepFound(h, access, q, h.alphabet[j]) {
      assert j < i ==> StepFound(h, access, q, h.alphabet[j]);
    }
  }

  lemma VisitingEnd(h: Mealy, access: map<nat, Word>, queue: seq<nat>, q: nat)
    requires Visiting(h, access, queue, q, |h.alphabet|)
    ensures Explored(h, access, queue, |access[q]|) && access.Keys <= Below(h.size)
  {
    forall p: nat, a | p in access && p !in queue && a in h.alphabet ensures StepFound(h, access, p, a) {
      if p == q {
        var j: nat :| j < |h.alphabet| && h.alphabet[j] == a;
        assert StepFound(h, access, q, h.alphabet[j]);
      }
    }
  }

  /** One turn of the search: pop a state, then append each unseen successor. */
  method VisitSuccessors(h: Mealy, access: map<nat, Word>, queue: seq<nat>, cover: seq<Word>, ghost level: nat)
      returns (access': map<nat, Word>, queue': seq<nat>, cover': seq<Word>, ghost level': nat)
    requires h.Total() && queue != [] && Explored(h, access, queue, level)
    requires Lists(cover, access)
    ensures Explored(h, access', queue', level')
    ensures Lists(cover', access')
    ensures access.Keys <= access'.Keys <= Below(h.size)
    ensures access'.Keys == access.Keys ==> |queue'| < |queue|
  {
    hide Lists, Mealy.Outputs, Visiting, Explored;
    VisitingStart(h, access, queue, level);
    var q := queue[0];
    access', queue', cover' := access, queue[1..], cover;
    for i := 0 to |h.alphabet|
      invariant access.Keys <= access'.Keys && q in access'
      invariant access'.Keys == access.Keys ==> |queue'| == |queue| - 1
      invariant Visiting(h, access', queue', q, i)
      invariant Lists(cover', access')
    {
      var a := h.alphabet[i];
      InRange(h, access', queue', q, i);
      var nx := h.delta[(q, a)];
      if nx !in access' {
        var w := access'[q] + [a];
        VisitingNew(h, access', queue', q, i);
        ListsOneMore(cover', access', nx, w);
        access', queue', cover' := access'[nx := w], queue' + [nx], cover' + [w];
      } else {
        VisitingSeen(h, access', queue', q, i);
      }
    }
    VisitingEnd(h, access', queue', q);
    level' := |access'[q]|;
  }

  lemma InRange(h: Mealy, access: map<nat, Word>, queue: seq<nat>, q: nat, i: nat)
    requires Visiting(h, access, queue, q, i)
    ensures q < h.size
  {
  }

  /** `_sigma_upto`: all words of at most `maxlen` inputs, level by level. */
  method SigmaUpTo(h: Mealy, maxlen: nat) returns (seqs: seq<Word>)
    ensures forall u :: u in seqs <==> h.Over(u) && |u| <= maxlen
  {
    seqs := [[]];
    var frontier: seq<Word> := [[]];
    for n := 0 to maxlen
      invariant forall u :: u in frontier <==> h.Over(u) && |u| == n
      invariant forall u :: u in seqs <==> h.Over(u) && |u| <= n
    {
      frontier := Extended(h, frontier, n);
      seqs := seqs + frontier;
    }
  }

  method Extended(h: Mealy, frontier: seq<Word>, ghost n: nat) returns (next: seq<Word>)
    requires forall u :: u in frontier <==> h.Over(u) && |u| == n
    ensures forall u :: u in next <==> h.Over(u) && |u| == n + 1
  {
    next := [];
    for i := 0 to |frontier|
      invariant forall u | u in next :: h.Over(u) && |u| == n + 1
      invariant forall k, a | 0 <= k < i && a in h.alphabet :: frontier[k] + [a] in next
    {
      var p := frontier[i];
      for j := 0 to |h.alphabet|
        invariant forall u | u in next :: h.Over(u) && |u| == n + 1
        invariant forall k, a | 0 <= k < i && a in h.alphabet :: frontier[k] + [a] in next
        invariant forall l | 0 <= l < j :: p + [h.alphabet[l]] in next
      {
        next := next + [p + [h.alphabet[j]]];
      }
      assert forall a | a in h.alphabet :: p + [a] in next;
    }
    forall u | h.Over(u) && |u| == n + 1 ensures u in next {
      var v, a := u[..n], u[n];
      assert u == v + [a] && v in frontier && a in h.alphabet;
      var k :| 0 <= k < |frontier| && frontier[k] == v;
    }
  }

  /** p u w with p in the cover, |u| <= depth and w an experiment. */
  ghost predicate IsTest(t: Word, h: Mealy, cover: seq<Word>, ws: seq<Word>, depth: nat) {
    exists p, u, w :: Among(p, cover) && h.Over(u) && |u| <= depth && Among(w, ws) && t == p + u + w
  }

  /** All short words are tests: the empty access word, any middle part, any single letter. */
  lemma ShortWordsAreTests(u: Word, h: Mealy, cover: seq<Word>, ws: seq<Word>, depth: nat)
    requires [] in cover && HasLetters(ws, h.alphabet) && h.Over(u) && 0 < |u| <= depth + 1
    ensures IsTest(u, h, cover, ws, depth)
  {
    var k := |u| - 1;
    assert u[k] in h.alphabet && u == [] + u[..k] + [u[k]];
    assert Among([], cover) && Among([u[k]], ws);
  }

  /** Shorter, or as long and not behind it in the order of words. */
  predicate NoLaterThan(s: Word, t: Word) {
    |s| < |t| || (|s| == |t| && Le(s, t))
  }

  /** `w_method_ce`: the first test, in order of length, on which the hypothesis and the incumbent
      disagree. No disagreement at all of at most Depth + 1 inputs is shorter. `cover` is the state cover
      it used. */
  method WMethodCe(h: Mealy, oracle: Oracle, ws: seq<Word>, n: int) returns (ce: Option<Word>, cover: seq<Word>)
    requires oracle.Valid() && h.Total() && h.alphabet == oracle.inc.alphabet
    requires forall q: nat | q < h.size :: Reachable(h, q)
    requires forall w | w in ws :: h.Over(w)
    modifies oracle
    ensures oracle.Valid() && old(oracle.cache.Keys) <= oracle.cache.Keys
    ensures Covers(cover, h) && ShortestCover(cover, h)
    ensures ce.None? ==> Conforms(h, oracle.inc, cover, ws, Depth(n, h.size))
    ensures ce.Some? ==> h.Over(ce.value) && h.Run(ce.value) != oracle.inc.Run(ce.value)
    ensures ce.Some? ==> IsTest(ce.value, h, cover, ws, Depth(n, h.size))
    ensures ce.Some? ==> forall t | IsTest(t, h, cover, ws, Depth(n, h.size)) && |t| < |ce.value| ::
        h.Run(t) == oracle.inc.Run(t)
    ensures ce.Some? ==> forall t | IsTest(t, h, cover, ws, Depth(n, h.size)) && h.Run(t) != oracle.inc.Run(t) ::
        NoLaterThan(ce.value, t)
    ensures ce.Some? && HasLetters(ws, h.alphabet) ==>
      forall u | h.Over(u) && |u| < |ce.value| && |u| <= Depth(n, h.size) + 1 :: h.Run(u) == oracle.inc.Run(u)
  {
    hide HasLetters, Covers, ShortestCover, Conforms, IsTest, Mealy.Outputs, Mealy.Total;
    cover := StateCover(h);
    var mids := SigmaUpTo(h, Depth(n, h.size));
    var tests := set p, u, w | p in cover && u in mids && w in ws :: p + u + w;
    TestsAreTests(h, cover, ws, mids, Depth(n, h.size), tests);
    var ordered := SortedWords(tests, true);
    oracle.Prefill(tests);
    assert forall i | 0 <= i < |ordered| :: ordered[i] in ordered;
    ce := FirstDisagreement(h, oracle, ordered);
    if ce.None? {
      PassedConforms(h, oracle.inc, cover, ws, Depth(n, h.size));
    } else if HasLetters(ws, h.alphabet) {
      ShortWordsAgree(h, oracle.inc, cover, ws, Depth(n, h.size), |ce.value|);
    }
  }

  lemma ShortWordsAgree(h: Mealy, inc: Mealy, cover: seq<Word>, ws: seq<Word>, depth: nat, length: nat)
    requires Covers(cover, h) && HasLetters(ws, h.alphabet)
    requires forall t | IsTest(t, h, cover, ws, depth) && |t| < length :: h.Run(t) == inc.Run(t)
    ensures forall u | h.Over(u) && |u| < length && |u| <= depth + 1 :: h.Run(u) == inc.Run(u)
  {
    hide HasLetters;
    forall u | h.Over(u) && |u| < length && |u| <= depth + 1 ensures h.Run(u) == inc.Run(u) {
      if u == [] {
        assert h.Run(u) == [] == inc.Run(u);
      } else {
        ShortWordsAreTests(u, h, cover, ws, depth);
      }
    }
  }

  lemma PassedConforms(h: Mealy, inc: Mealy, cover: seq<Word>, ws: seq<Word>, depth: nat)
    requires forall t | IsTest(t, h, cover, ws, depth) :: h.Run(t) == inc.Run(t)
    ensures Conforms(h, inc, cover, ws, depth)
  {
    hide Mealy.Outputs, Mealy.Over;
    forall p, u, w | Among(p, cover) && h.Over(u) && |u| <= depth && Among(w, ws)
      ensures h.Run(p + u + w) == inc.Run(p + u + w)
    {
      assert IsTest(p + u + w, h, cover, ws, depth);
    }
  }

  lemma TestsAreTests(h: Mealy, cover: seq<Word>, ws: seq<Word>, mids: seq<Word>, depth: nat, tests: set<Word>)
    requires Covers(cover, h) && forall w | w in ws :: h.Over(w)
    requires forall u :: u in mids <==> h.Over(u) && |u| <= depth
    requires tests == set p, u, w | p in cover && u in mids && w in ws :: p + u + w
    ensures forall t :: t in tests <==> IsTest(t, h, cover, ws, depth)
    ensures forall t | t in tests :: h.Over(t)
  {
    forall t ensures t in tests <==> IsTest(t, h, cover, ws, depth) {
      if IsTest(t, h, cover, ws, depth) {
        var p, u, w :| Among(p, cover) && h.Over(u) && |u| <= depth && Among(w, ws) && t == p + u + w;
        assert p in cover && u in mids && w in ws;
      }
      if t in tests {
        var p, u, w :| p in cover && u in mids && w in ws && t == p + u + w;
        assert Among(p, cover) && Among(w, ws);
      }
    }
    forall t | t in tests ensures h.Over(t) {
      var p, u, w :| p in cover && u in mids && w in ws && t == p + u + w;
      OverConcat(h, p, u);
      OverConcat(h, p + u, w);
    }
  }

  /** The scan over the ordered tests. */
  method FirstDisagreement(h: Mealy, oracle: Oracle, ordered: seq<Word>) returns (ce: Option<Word>)
    requires oracle.Valid() && h.Total() && h.alphabet == oracle.inc.alphabet
    requires forall i | 0 <= i < |ordered| :: h.Over(ordered[i]) && ordered[i] in oracle.cache
    requires Sorted(ordered, ShortLexLe)
    ensures ce.None? ==> forall t | t in ordered :: h.Run(t) == oracle.inc.Run(t)
    ensures ce.Some? ==> ce.value in ordered && h.Run(ce.value) != oracle.inc.Run(ce.value)
    ensures ce.Some? ==> forall t | t in ordered && h.Run(t) != oracle.inc.Run(t) :: NoLaterThan(ce.value, t)
  {
    for i := 0 to |ordered|
      invariant forall j | 0 <= j < i :: h.Run(ordered[j]) == oracle.inc.Run(ordered[j])
    {
      var t := ordered[i];
      var expected := h.RunOutputsFrom(h.initial, t);
      if expected != oracle.Answer(t) {
        forall s | s in ordered && h.Run(s) != oracle.inc.Run(s) ensures NoLaterThan(t, s) {
          var j :| 0 <= j < |ordered| && ordered[j] == s;
          LeTotal(t, t);
          assert j > i ==> ShortLexLe(ordered[i], ordered[j]);
        }
        return Some(t);
      }
    }
    return None;
  }
}
