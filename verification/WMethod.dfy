/** Chow's W-method: why passing the tests of `w_method_ce` means equivalence, when the incumbent
    has at most the declared number of states. */
module WMethod {
  import opened Automata
  import opened Order

  /** No test of the form u w, with u of at most `k` inputs and w an experiment, tells the two
      states apart (stated by unfolding u from the front). */
  ghost predicate Alike(m1: Mealy, x: nat, m2: Mealy, y: nat, ws: seq<Word>, k: nat)
    decreases k
  {
    && (forall w | w in ws :: m1.Outputs(x, w) == m2.Outputs(y, w))
    && (k > 0 ==> forall a | a in m1.alphabet :: Alike(m1, m1.Next(x, a), m2, m2.Next(y, a), ws, k - 1))
  }

  ghost predicate HasLetters(ws: seq<Word>, alphabet: seq<Symbol>) {
    forall a | a in alphabet :: [a] in ws
  }

  lemma AfterFirstLetter(m: Mealy, x: nat, a: Symbol, v: Word)
    ensures m.Outputs(x, [a] + v)[1..] == m.Outputs(m.Next(x, a), v)
  {
    assert ([a] + v)[1..] == v;
  }

  /** All tests u w from the two states passed, hence the states are alike. */
  lemma {:induction false} TestsMakeAlike(m1: Mealy, x: nat, m2: Mealy, y: nat, ws: seq<Word>, k: nat)
    requires m1.alphabet == m2.alphabet
    requires forall u, w | m1.Over(u) && |u| <= k && w in ws :: m1.Outputs(x, u + w) == m2.Outputs(y, u + w)
    ensures Alike(m1, x, m2, y, ws, k)
    decreases k
  {
    hide Mealy.Outputs;
    forall w | w in ws ensures m1.Outputs(x, w) == m2.Outputs(y, w) {
      assert [] + w == w;
      assert m1.Over([]);
    }
    if k > 0 {
      forall a | a in m1.alphabet ensures Alike(m1, m1.Next(x, a), m2, m2.Next(y, a), ws, k - 1) {
        forall u, w | m1.Over(u) && |u| <= k - 1 && w in ws
          ensures m1.Outputs(m1.Next(x, a), u + w) == m2.Outputs(m2.Next(y, a), u + w)
        {
          OverConcat(m1, [a], u);
          assert [a] + u + w == [a] + (u + w);
          AfterFirstLetter(m1, x, a, u + w);
          AfterFirstLetter(m2, y, a, u + w);
          assert m1.Outputs(x, [a] + u + w) == m2.Outputs(y, [a] + u + w);
        }
        TestsMakeAlike(m1, m1.Next(x, a), m2, m2.Next(y, a), ws, k - 1);
      }
    }
  }

  lemma {:induction false} AlikeShrinks(m1: Mealy, x: nat, m2: Mealy, y: nat, ws: seq<Word>, k: nat)
    requires Alike(m1, x, m2, y, ws, k + 1)
    ensures Alike(m1, x, m2, y, ws, k)
    decreases k
  {
    if k > 0 {
      forall a | a in m1.alphabet ensures Alike(m1, m1.Next(x, a), m2, m2.Next(y, a), ws, k - 1) {
        AlikeShrinks(m1, m1.Next(x, a), m2, m2.Next(y, a), ws, k - 1);
      }
    }
  }

  lemma {:induction false} AlikeSymmetric(m1: Mealy, x: nat, m2: Mealy, y: nat, ws: seq<Word>, k: nat)
    requires Alike(m1, x, m2, y, ws, k) && m1.alphabet == m2.alphabet
    ensures Alike(m2, y, m1, x, ws, k)
    decreases k
  {
    if k > 0 {
      forall a | a in m1.alphabet ensures Alike(m2, m2.Next(y, a), m1, m1.Next(x, a), ws, k - 1) {
        AlikeSymmetric(m1, m1.Next(x, a), m2, m2.Next(y, a), ws, k - 1);
      }
    }
  }

  lemma {:induction false} AlikeTransitive(
      m1: Mealy, x: nat, m2: Mealy, y: nat, m3: Mealy, z: nat, ws: seq<Word>, k: nat)
    requires m1.alphabet == m2.alphabet == m3.alphabet
    requires Alike(m1, x, m2, y, ws, k) && Alike(m2, y, m3, z, ws, k)
    ensures Alike(m1, x, m3, z, ws, k)
    decreases k
  {
    if k > 0 {
      forall a | a in m1.alphabet ensures Alike(m1, m1.Next(x, a), m3, m3.Next(z, a), ws, k - 1) {
        AlikeTransitive(m1, m1.Next(x, a), m2, m2.Next(y, a), m3, m3.Next(z, a), ws, k - 1);
      }
    }
  }

  lemma {:induction false} AlikeReflexive(m: Mealy, x: nat, ws: seq<Word>, k: nat)
    ensures Alike(m, x, m, x, ws, k)
    decreases k
  {
    if k > 0 {
      forall a | a in m.alphabet ensures Alike(m, m.Next(x, a), m, m.Next(x, a), ws, k - 1) {
        AlikeReflexive(m, m.Next(x, a), ws, k - 1);
      }
    }
  }

  // ---------------------------------------------------------- partition refinement

  /** One more input refines no class of the machine's states any further. */
  ghost predicate Stable(m: Mealy, ws: seq<Word>, k: nat) {
    forall x: nat, y: nat | x < m.size && y < m.size && Alike(m, x, m, y, ws, k) :: Alike(m, x, m, y, ws, k + 1)
  }

  /** The least state of each class: one element per class. */
  ghost function Least(m: Mealy, ws: seq<Word>, k: nat): set<nat> {
    set x | x in Below(m.size) && IsLeast(m, ws, k, x)
  }

  ghost predicate IsLeast(m: Mealy, ws: seq<Word>, k: nat, x: nat) {
    forall y: nat | y < x :: !Alike(m, x, m, y, ws, k)
  }

  lemma {:induction false} LeastOf(m: Mealy, ws: seq<Word>, k: nat, x: nat) returns (r: nat)
    requires x < m.size
    ensures r in Least(m, ws, k) && Alike(m, r, m, x, ws, k)
    decreases x
  {
    AlikeReflexive(m, x, ws, k);
    if x in Least(m, ws, k) {
      r := x;
    } else {
      var y: nat :| y < x && Alike(m, x, m, y, ws, k);
      r := LeastOf(m, ws, k, y);
      AlikeSymmetric(m, x, m, y, ws, k);
      AlikeTransitive(m, r, m, y, m, x, ws, k);
    }
  }

  lemma LeastUnique(m: Mealy, ws: seq<Word>, k: nat, r: nat, s: nat)
    requires r in Least(m, ws, k) && s in Least(m, ws, k) && Alike(m, r, m, s, ws, k)
    ensures r == s
  {
    AlikeSymmetric(m, r, m, s, ws, k);
  }

  lemma LeastGrows(m: Mealy, ws: seq<Word>, k: nat)
    ensures Least(m, ws, k) <= Least(m, ws, k + 1)
  {
    var k' := k + 1;
    forall x | x in Least(m, ws, k) ensures IsLeast(m, ws, k', x) {
      forall y: nat | y < x ensures !Alike(m, x, m, y, ws, k') {
        if Alike(m, x, m, y, ws, k') {
          AlikeShrinks(m, x, m, y, ws, k);
        }
      }
    }
  }

  /** While the partition is not stable, one more input adds a class. */
  lemma {:induction false} UnstableGrows(m: Mealy, ws: seq<Word>, k: nat)
    requires !Stable(m, ws, k)
    ensures |Least(m, ws, k)| < |Least(m, ws, k + 1)|
  {
    var x: nat, y: nat :| x < m.size && y < m.size && Alike(m, x, m, y, ws, k) && !Alike(m, x, m, y, ws, k + 1);
    var r := LeastOf(m, ws, k, x);
    AlikeTransitive(m, r, m, x, m, y, ws, k);
    if Alike(m, r, m, x, ws, k + 1) && Alike(m, r, m, y, ws, k + 1) {
      AlikeSymmetric(m, r, m, x, ws, k + 1);
      AlikeTransitive(m, x, m, r, m, y, ws, k + 1);
      assert false;
    }
    var z := if Alike(m, r, m, x, ws, k + 1) then y else x;
    var s := LeastOf(m, ws, k + 1, z);
    assert s != r;
    AlikeShrinks(m, s, m, z, ws, k);
    AlikeSymmetric(m, r, m, z, ws, k);
    AlikeTransitive(m, s, m, z, m, r, ws, k);
    if s in Least(m, ws, k) {
      LeastUnique(m, ws, k, s, r);
    }
    LeastGrows(m, ws, k);
    Subset(Least(m, ws, k), Least(m, ws, k + 1), s);
  }

  lemma Subset(s: set<nat>, t: set<nat>, x: nat)
    requires s <= t && x in t && x !in s
    ensures |s| < |t|
  {
    assert s <= t - {x};
    Included(s, t - {x});
  }

  lemma {:induction false} Included(s: set<nat>, t: set<nat>)
    requires s <= t
    ensures |s| <= |t|
    decreases s
  {
    if s != {} {
      var x :| x in s;
      Included(s - {x}, t - {x});
    }
  }

  lemma {:induction false} StableStays(m: Mealy, ws: seq<Word>, k: nat)
    requires m.Total() && Stable(m, ws, k)
    ensures Stable(m, ws, k + 1)
  {
    var k' := k + 1;
    forall x: nat, y: nat | x < m.size && y < m.size && Alike(m, x, m, y, ws, k')
      ensures Alike(m, x, m, y, ws, k' + 1)
    {
      forall a | a in m.alphabet ensures Alike(m, m.Next(x, a), m, m.Next(y, a), ws, k') {
        assert Alike(m, m.Next(x, a), m, m.Next(y, a), ws, k);
        assert m.Next(x, a) < m.size && m.Next(y, a) < m.size;
      }
    }
  }

  /** An unstable partition after `k` inputs has at least `k` classes more than it started with. */
  lemma {:induction false} UnstableCount(m: Mealy, ws: seq<Word>, k: nat)
    requires m.Total() && !Stable(m, ws, k)
    ensures |Least(m, ws, 0)| + k < |Least(m, ws, k + 1)|
  {
    hide Stable, Least;
    UnstableGrows(m, ws, k);
    if k > 0 {
      if Stable(m, ws, k - 1) {
        StableStays(m, ws, k - 1);
      }
      UnstableCount(m, ws, k - 1);
    }
  }

  /** With `classes` states already told apart by the experiments alone, size - classes further
      inputs refine the partition of a machine as far as it goes. */
  lemma StableByCounting(m: Mealy, ws: seq<Word>, classes: nat, k: nat)
    requires m.Total() && classes <= |Least(m, ws, 0)| && m.size <= classes + k
    ensures Stable(m, ws, k)
  {
    if !Stable(m, ws, k) {
      UnstableCount(m, ws, k);
      Included(Least(m, ws, k + 1), Below(m.size));
    }
  }

  /** A stable partition that sees single inputs is a bisimulation. */
  lemma {:induction false} StableMeansSame(m: Mealy, ws: seq<Word>, k: nat, x: nat, y: nat, w: Word)
    requires m.Total() && Stable(m, ws, k) && HasLetters(ws, m.alphabet)
    requires x < m.size && y < m.size && Alike(m, x, m, y, ws, k) && m.Over(w)
    ensures m.Outputs(x, w) == m.Outputs(y, w)
    decreases |w|
  {
    if w != [] {
      var a := w[0];
      assert a in m.alphabet;
      LetterAgrees(m, x, m, y, ws, k, a);
      assert Alike(m, x, m, y, ws, k + 1);
      StableMeansSame(m, ws, k, m.Next(x, a), m.Next(y, a), w[1..]);
    }
  }

  lemma LetterAgrees(m1: Mealy, x: nat, m2: Mealy, y: nat, ws: seq<Word>, k: nat, a: Symbol)
    requires Alike(m1, x, m2, y, ws, k) && [a] in ws
    ensures m1.Emit(x, a) == m2.Emit(y, a)
  {
    assert m1.Outputs(x, [a])[0] == m1.Emit(x, a);
    assert m2.Outputs(y, [a])[0] == m2.Emit(y, a);
  }

  // ---------------------------------------------------------- completeness

  /** Every hypothesis state is reached by a member of the cover, the initial one by []. */
  ghost predicate Covers(cover: seq<Word>, h: Mealy) {
    && [] in cover
    && (forall p | p in cover :: h.Over(p))
    && (forall q: nat | q < h.size :: CoversState(cover, h, q))
  }

  ghost predicate CoversState(cover: seq<Word>, h: Mealy, q: nat) {
    exists p :: p in cover && h.Reach(p) == q
  }

  /** The experiments tell every two states of the machine apart. */
  ghost predicate Separates(ws: seq<Word>, h: Mealy) {
    forall x: nat, y: nat | x < h.size && y < h.size && x != y :: Told(ws, h, x, y)
  }

  ghost predicate Told(ws: seq<Word>, h: Mealy, x: nat, y: nat) {
    exists w :: w in ws && h.Outputs(x, w) != h.Outputs(y, w)
  }

  /** Every test p u w of the W-method with |u| <= depth passed. */
  ghost predicate Conforms(h: Mealy, inc: Mealy, cover: seq<Word>, ws: seq<Word>, depth: nat) {
    forall p, u, w | Among(p, cover) && h.Over(u) && |u| <= depth && Among(w, ws) ::
      h.Run(p + u + w) == inc.Run(p + u + w)
  }

  /** The length bound max(0, n - m) + 1 on the middle part. */
  function Depth(n: int, m: nat): (d: nat)
    ensures d >= 1 && n - m + 1 <= d
  {
    if n - m >= 0 then n - m + 1 else 1
  }

  /** Passing the tests behind `p` makes the hypothesis state and the incumbent state alike. */
  lemma ConformsAlike(h: Mealy, inc: Mealy, cover: seq<Word>, ws: seq<Word>, depth: nat, p: Word, a: Word)
    requires h.alphabet == inc.alphabet && Conforms(h, inc, cover, ws, depth)
    requires p in cover && h.Over(p) && h.Over(a) && |a| <= depth
    ensures Alike(h, h.Reach(p + a), inc, inc.Reach(p + a), ws, depth - |a|)
  {
    hide Mealy.Outputs, Mealy.After, Mealy.Over;
    forall u, w | h.Over(u) && |u| <= depth - |a| && w in ws
      ensures h.Outputs(h.Reach(p + a), u + w) == inc.Outputs(inc.Reach(p + a), u + w)
    {
      assert Among(p, cover) && Among(w, ws);
      OverConcat(h, a, u);
      assert p + (a + u) + w == (p + a) + (u + w);
      OutputsConcat(h, h.initial, p + a, u + w);
      OutputsConcat(inc, inc.initial, p + a, u + w);
    }
    TestsMakeAlike(h, h.Reach(p + a), inc, inc.Reach(p + a), ws, depth - |a|);
  }

  /** The cover brings the incumbent to as many states, told apart by the experiments, as the
      hypothesis has. */
  lemma ClassesReached(h: Mealy, inc: Mealy, cover: seq<Word>, ws: seq<Word>, depth: nat)
    requires h.Total() && inc.Total() && h.alphabet == inc.alphabet
    requires Covers(cover, h) && Separates(ws, h) && Conforms(h, inc, cover, ws, depth)
    ensures h.size <= |Least(inc, ws, 0)|
  {
    hide Mealy.Outputs, Mealy.After, Least, Conforms;
    var reps: seq<nat> := [];
    while |reps| < h.size
      invariant |reps| <= h.size
      invariant forall q | 0 <= q < |reps| :: reps[q] in Least(inc, ws, 0)
      invariant forall q | 0 <= q < |reps| :: Alike(h, q, inc, reps[q], ws, 0)
    {
      var q := |reps|;
      assert CoversState(cover, h, q);
      var p :| p in cover && h.Reach(p) == q;
      assert p + [] == p;
      ConformsAlike(h, inc, cover, ws, depth, p, []);
      assert Alike(h, q, inc, inc.Reach(p), ws, 0);
      AfterInRange(inc, inc.initial, p);
      var r := LeastOf(inc, ws, 0, inc.Reach(p));
      AlikeSymmetric(inc, r, inc, inc.Reach(p), ws, 0);
      AlikeTransitive(h, q, inc, inc.Reach(p), inc, r, ws, 0);
      reps := reps + [r];
    }
    forall i, j | 0 <= i < j < |reps| ensures reps[i] != reps[j] {
      assert Told(ws, h, i, j);
      var w :| w in ws && h.Outputs(i, w) != h.Outputs(j, w);
    }
    DistinctFit(reps, Least(inc, ws, 0));
  }

  /** On every input sequence the hypothesis and the incumbent reach states that are alike. */
  lemma {:induction false} ReachAlike(h: Mealy, inc: Mealy, cover: seq<Word>, ws: seq<Word>, depth: nat, w: Word)
    requires h.Total() && inc.Total() && h.alphabet == inc.alphabet && depth >= 1
    requires Covers(cover, h) && Conforms(h, inc, cover, ws, depth)
    requires HasLetters(ws, inc.alphabet) && Stable(inc, ws, depth - 1) && h.Over(w)
    ensures Alike(h, h.Reach(w), inc, inc.Reach(w), ws, depth - 1)
    decreases |w|
  {
    if w == [] {
      assert [] + [] == w;
      ConformsAlike(h, inc, cover, ws, depth, [], []);
      AlikeShrinks(h, h.Reach(w), inc, inc.Reach(w), ws, depth - 1);
    } else {
      var v, a := w[..|w| - 1], w[|w| - 1];
      assert w == v + [a];
      OverConcat(h, v, [a]);
      assert h.Over(v) && a in h.alphabet;
      ReachAlike(h, inc, cover, ws, depth, v);
      AfterInRange(h, h.initial, v);
      assert CoversState(cover, h, h.Reach(v));
      var p :| p in cover && h.Reach(p) == h.Reach(v);
      IncumbentMerges(h, inc, cover, ws, depth, p, v);
      TransitionAlike(h, inc, cover, ws, depth, p, v, a);
    }
  }

  /** The transition by `a` was tested behind `p`, and from there on `p` and `v` are the same to
      the incumbent. */
  lemma TransitionAlike(
      h: Mealy, inc: Mealy, cover: seq<Word>, ws: seq<Word>, depth: nat, p: Word, v: Word, a: Symbol)
    requires h.alphabet == inc.alphabet && depth >= 1 && Conforms(h, inc, cover, ws, depth)
    requires p in cover && h.Over(p) && a in h.alphabet && h.Reach(p) == h.Reach(v)
    requires Alike(inc, inc.Reach(p), inc, inc.Reach(v), ws, depth)
    ensures Alike(h, h.Reach(v + [a]), inc, inc.Reach(v + [a]), ws, depth - 1)
  {
    ConformsAlike(h, inc, cover, ws, depth, p, [a]);
    StepReach(h, p, a);
    StepReach(inc, p, a);
    StepReach(h, v, a);
    StepReach(inc, v, a);
    AlikeTransitive(h, h.Reach(v + [a]), inc, inc.Reach(p + [a]), inc, inc.Reach(v + [a]), ws, depth - 1);
  }

  /** Where the hypothesis merges `v` with the cover word `p`, so does a conforming incumbent: the
      two states it reaches are alike, and hence alike for one more input. */
  lemma IncumbentMerges(h: Mealy, inc: Mealy, cover: seq<Word>, ws: seq<Word>, depth: nat, p: Word, v: Word)
    requires h.Total() && inc.Total() && h.alphabet == inc.alphabet && depth >= 1
    requires Conforms(h, inc, cover, ws, depth) && Stable(inc, ws, depth - 1)
    requires p in cover && h.Over(p) && h.Over(v) && h.Reach(p) == h.Reach(v)
    requires Alike(h, h.Reach(v), inc, inc.Reach(v), ws, depth - 1)
    ensures Alike(inc, inc.Reach(p), inc, inc.Reach(v), ws, depth)
  {
    assert p + [] == p;
    ConformsAlike(h, inc, cover, ws, depth, p, []);
    AlikeShrinks(h, h.Reach(p), inc, inc.Reach(p), ws, depth - 1);
    AlikeSymmetric(h, h.Reach(p), inc, inc.Reach(p), ws, depth - 1);
    AlikeTransitive(inc, inc.Reach(p), h, h.Reach(v), inc, inc.Reach(v), ws, depth - 1);
    AfterInRange(inc, inc.initial, p);
    AfterInRange(inc, inc.initial, v);
    assert Alike(inc, inc.Reach(p), inc, inc.Reach(v), ws, depth - 1 + 1);
  }

  lemma StepReach(m: Mealy, w: Word, a: Symbol)
    ensures m.Reach(w + [a]) == m.Next(m.Reach(w), a)
  {
    AfterConcat(m, m.initial, w, [a]);
    assert [a][1..] == [];
  }

  /** W-METHOD COMPLETENESS. A hypothesis whose states are all covered and separated by the
      experiments, and which passed every test of depth max(0, n - m) + 1, is exactly equivalent
      to any incumbent of at most `n` states, on input sequences of any length. */
  lemma Completeness(h: Mealy, inc: Mealy, cover: seq<Word>, ws: seq<Word>, n: int)
    requires h.Total() && inc.Total() && h.alphabet == inc.alphabet
    requires Covers(cover, h) && Separates(ws, h) && HasLetters(ws, h.alphabet)
    requires Conforms(h, inc, cover, ws, Depth(n, h.size))
    requires inc.size <= n
    ensures Equivalent(h, inc)
  {
    var depth := Depth(n, h.size);
    ClassesReached(h, inc, cover, ws, depth);
    StableByCounting(inc, ws, h.size, depth - 1);
    forall w: Word | h.Over(w) ensures h.Run(w) == inc.Run(w) {
      AgreeOn(h, inc, cover, ws, depth, w);
    }
  }

  lemma {:induction false} AgreeOn(h: Mealy, inc: Mealy, cover: seq<Word>, ws: seq<Word>, depth: nat, w: Word)
    requires h.Total() && inc.Total() && h.alphabet == inc.alphabet && depth >= 1
    requires Covers(cover, h) && Conforms(h, inc, cover, ws, depth)
    requires HasLetters(ws, inc.alphabet) && Stable(inc, ws, depth - 1) && h.Over(w)
    ensures h.Run(w) == inc.Run(w)
    decreases |w|
  {
    if w != [] {
      var v, a := w[..|w| - 1], w[|w| - 1];
      assert w == v + [a];
      OverConcat(h, v, [a]);
      assert h.Over(v) && [a][0] in h.alphabet;
      AgreeOn(h, inc, cover, ws, depth, v);
      ReachAlike(h, inc, cover, ws, depth, v);
      OutputsConcat(h, h.initial, v, [a]);
      OutputsConcat(inc, inc.initial, v, [a]);
    }
  }

  /** A machine whose states the experiments separate is the smallest with its behaviour. */
  lemma Minimal(h: Mealy, cover: seq<Word>, ws: seq<Word>, other: Mealy)
    requires h.Total() && other.Total() && h.alphabet == other.alphabet
    requires Covers(cover, h) && Separates(ws, h) && (forall w | w in ws :: h.Over(w))
    requires Equivalent(h, other)
    ensures h.size <= other.size
  {
    forall p, u, w | Among(p, cover) && h.Over(u) && |u| <= 1 && Among(w, ws)
      ensures h.Run(p + u + w) == other.Run(p + u + w)
    {
      OverConcat(h, p, u);
      OverConcat(h, p + u, w);
    }
    ClassesReached(h, other, cover, ws, 1);
    Included(Least(other, ws, 0), Below(other.size));
  }
}
