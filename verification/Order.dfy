/** Python's ordering of strings (and of tuples of input names), and its `sorted`. */
module Order {

  /** Lexicographic order; a proper prefix comes first. */
  predicate Le(a: string, b: string) {
    a == [] || (b != [] && (a[0] < b[0] || (a[0] == b[0] && Le(a[1..], b[1..]))))
  }

  ghost predicate SmallerAt(a: string, b: string, i: nat) {
    i < |a| && i < |b| && a[..i] == b[..i] && a[i] < b[i]
  }

  /** Either the first word begins the second, or it is smaller where they first differ. */
  lemma {:induction false} LeMeans(a: string, b: string)
    ensures Le(a, b) <==> a <= b || exists i: nat :: SmallerAt(a, b, i)
    decreases |a|
  {
    forall i: nat | SmallerAt(a, b, i) ensures i == 0 || a[0] == b[0] {
      SameStart(a, b, i);
    }
    if a != [] && b != [] && a[0] == b[0] {
      LeMeans(a[1..], b[1..]);
      SmallerBehind(a, b);
      assert a == [a[0]] + a[1..] && b == [b[0]] + b[1..];
      assert a[1..] <= b[1..] <==> a <= b;
    } else if a != [] && b != [] {
      assert a[0] < b[0] ==> SmallerAt(a, b, 0);
    }
  }

  lemma SameStart(a: string, b: string, i: nat)
    requires SmallerAt(a, b, i)
    ensures i == 0 || a[0] == b[0]
  {
    assert i > 0 ==> a[..i][0] == b[..i][0];
  }

  lemma SmallerBehind(a: string, b: string)
    requires a != [] && b != [] && a[0] == b[0]
    ensures (exists i: nat :: SmallerAt(a[1..], b[1..], i)) <==> exists i: nat :: SmallerAt(a, b, i)
  {
    if i: nat :| SmallerAt(a[1..], b[1..], i) {
      assert a[..i + 1] == [a[0]] + a[1..][..i] && b[..i + 1] == [b[0]] + b[1..][..i];
      assert SmallerAt(a, b, i + 1);
    }
    if i: nat :| SmallerAt(a, b, i) {
      assert a[1..][..i - 1] == a[..i][1..] && b[1..][..i - 1] == b[..i][1..];
      assert SmallerAt(a[1..], b[1..], i - 1);
    }
  }

  lemma LeTotal(a: string, b: string)
    ensures Le(a, b) || Le(b, a)
  {
  }

  lemma {:induction false} LeTransitive(a: string, b: string, c: string)
    requires Le(a, b) && Le(b, c)
    ensures Le(a, c)
  {
    if a != [] && a[0] == b[0] == c[0] {
      LeTransitive(a[1..], b[1..], c[1..]);
    }
  }

  lemma {:induction false} LeAntisymmetric(a: string, b: string)
    requires Le(a, b) && Le(b, a)
    ensures a == b
  {
    if a != [] && b != [] {
      LeAntisymmetric(a[1..], b[1..]);
      assert a == [a[0]] + a[1..] && b == [b[0]] + b[1..];
    }
  }

  /** Tests are tried shortest first, those of equal length in the order of their letters. */
  predicate ShortLexLe(a: string, b: string) {
    |a| < |b| || (|a| == |b| && Le(a, b))
  }

  ghost predicate TotalPreorder<T(!new)>(le: (T, T) -> bool) {
    && (forall x, y :: le(x, y) || le(y, x))
    && (forall x, y, z :: le(x, y) && le(y, z) ==> le(x, z))
  }

  ghost predicate Sorted<T>(xs: seq<T>, le: (T, T) -> bool) {
    forall i, j | 0 <= i < j < |xs| :: le(xs[i], xs[j])
  }

  lemma LeIsPreorder()
    ensures TotalPreorder(Le) && TotalPreorder(ShortLexLe)
  {
    forall a, b ensures Le(a, b) || Le(b, a) {
      LeTotal(a, b);
    }
    forall a, b, c | Le(a, b) && Le(b, c) ensures Le(a, c) {
      LeTransitive(a, b, c);
    }
  }

  /** Sorting by a key: the same elements, in order. */
  function Sort<T(!new)>(xs: seq<T>, le: (T, T) -> bool): (ys: seq<T>)
    requires TotalPreorder(le)
    ensures Sorted(ys, le) && multiset(ys) == multiset(xs)
  {
    if xs == [] then []
    else
      var k := |xs| - 1;
      LastApart(xs);
      Insert(Sort(xs[..k], le), xs[k], le)
  }

  function Insert<T(!new)>(xs: seq<T>, x: T, le: (T, T) -> bool): (ys: seq<T>)
    requires TotalPreorder(le) && Sorted(xs, le)
    ensures Sorted(ys, le) && multiset(ys) == multiset(xs) + multiset{x}
  {
    if xs == [] || le(xs[|xs| - 1], x) then
      AppendSorted(xs, x, le);
      xs + [x]
    else
      var k := |xs| - 1;
      LastApart(xs);
      var ys := Insert(xs[..k], x, le);
      InsertedBelow(xs, x, ys, le);
      ys + [xs[k]]
  }

  lemma AppendSorted<T(!new)>(xs: seq<T>, x: T, le: (T, T) -> bool)
    requires TotalPreorder(le) && Sorted(xs, le) && (xs != [] ==> le(xs[|xs| - 1], x))
    ensures Sorted(xs + [x], le)
  {
    forall j | 0 <= j < |xs| ensures le(xs[j], x) {
      assert j < |xs| - 1 ==> le(xs[j], xs[|xs| - 1]);
    }
  }

  lemma InsertedBelow<T(!new)>(xs: seq<T>, x: T, ys: seq<T>, le: (T, T) -> bool)
    requires TotalPreorder(le) && xs != [] && Sorted(xs, le) && Sorted(ys, le) && !le(xs[|xs| - 1], x)
    requires multiset(ys) == multiset(xs[..|xs| - 1]) + multiset{x}
    ensures Sorted(ys + [xs[|xs| - 1]], le)
  {
    var k := |xs| - 1;
    forall j | 0 <= j < |ys| ensures le(ys[j], xs[k]) {
      assert ys[j] in multiset(ys);
      assert ys[j] == x || ys[j] in multiset(xs[..k]);
    }
  }

  /** Two elements of `xs` with equal keys are the same element. */
  ghost predicate KeyInjective<T(!new)>(xs: seq<T>, le: (T, T) -> bool) {
    forall i, j | 0 <= i < |xs| && 0 <= j < |xs| && le(xs[i], xs[j]) && le(xs[j], xs[i]) :: xs[i] == xs[j]
  }

  /** With an injective key, the sorted order of the same elements is unique. */
  lemma {:induction false} SortedUnique<T(!new)>(a: seq<T>, b: seq<T>, le: (T, T) -> bool)
    requires multiset(a) == multiset(b) && Sorted(a, le) && Sorted(b, le) && KeyInjective(a, le)
    ensures a == b
    decreases |a|
  {
    assert |a| == |multiset(a)| == |multiset(b)| == |b|;
    if a != [] {
      var k := |a| - 1;
      SortedLast(a, b, le);
      LastApart(a);
      LastApart(b);
      Cancel(multiset(a[..k]), multiset(b[..k]), a[k]);
      SortedUnique(a[..k], b[..k], le);
      assert a == a[..k] + [a[k]] && b == b[..k] + [b[k]];
    }
  }

  lemma SortedLast<T(!new)>(a: seq<T>, b: seq<T>, le: (T, T) -> bool)
    requires multiset(a) == multiset(b) && Sorted(a, le) && Sorted(b, le) && KeyInjective(a, le)
    requires |a| == |b| > 0
    ensures a[|a| - 1] == b[|b| - 1]
  {
    var k := |a| - 1;
    assert a[k] in multiset(a) && b[k] in multiset(b);
    var i :| 0 <= i <= k && b[i] == a[k];
    var j :| 0 <= j <= k && a[j] == b[k];
  }

  lemma Cancel<T>(a: multiset<T>, b: multiset<T>, x: T)
    requires a + multiset{x} == b + multiset{x}
    ensures a == b
  {
    assert a == (a + multiset{x}) - multiset{x};
    assert b == (b + multiset{x}) - multiset{x};
  }

  lemma LastApart<T>(xs: seq<T>)
    requires xs != []
    ensures multiset(xs) == multiset(xs[..|xs| - 1]) + multiset{xs[|xs| - 1]}
  {
    assert xs == xs[..|xs| - 1] + [xs[|xs| - 1]];
  }

  /** The elements of a set, each once, in no particular order. */
  method Listed<T>(s: set<T>) returns (xs: seq<T>)
    ensures multiset(xs) == multiset(s)
  {
    xs := [];
    var rest := s;
    while rest != {}
      invariant multiset(xs) + multiset(rest) == multiset(s)
    {
      var x :| x in rest;
      assert multiset(rest) == multiset(rest - {x}) + multiset{x};
      xs, rest := xs + [x], rest - {x};
    }
  }

  lemma {:induction false} AnyListing<T>(s: set<T>) returns (xs: seq<T>)
    ensures multiset(xs) == multiset(s)
  {
    if s == {} {
      xs := [];
    } else {
      var x :| x in s;
      var rest := AnyListing(s - {x});
      xs := rest + [x];
      assert multiset(s) == multiset(s - {x}) + multiset{x};
    }
  }

  /** Some listing of a set. */
  ghost function Listing<T>(s: set<T>): (xs: seq<T>)
    ensures multiset(xs) == multiset(s)
  {
    if s == {} then []
    else
      var x :| x in s;
      assert multiset(s) == multiset(s - {x}) + multiset{x};
      Listing(s - {x}) + [x]
  }

  /** The elements of a set of strings, each once and sorted. */
  ghost function SortedSet(s: set<string>): (ys: seq<string>)
    ensures multiset(ys) == multiset(s) && Sorted(ys, Le)
    ensures forall y :: y in ys <==> y in s
  {
    LeIsPreorder();
    var ys := Sort(Listing(s), Le);
    SameMembers(ys, s);
    ys
  }

  /** There is only one such listing. */
  lemma SortedSetIs(s: set<string>, ys: seq<string>)
    requires multiset(ys) == multiset(s) && Sorted(ys, Le)
    ensures ys == SortedSet(s)
  {
    forall i, j | 0 <= i < |ys| && 0 <= j < |ys| && Le(ys[i], ys[j]) && Le(ys[j], ys[i]) ensures ys[i] == ys[j] {
      LeAntisymmetric(ys[i], ys[j]);
    }
    SortedUnique(ys, SortedSet(s), Le);
  }

  /** The first index whose element satisfies `p`; |xs| when none does. */
  ghost function FirstIndex<T>(xs: seq<T>, p: T -> bool): (i: nat)
    ensures i <= |xs|
    ensures i < |xs| ==> p(xs[i])
    ensures forall j | 0 <= j < i :: !p(xs[j])
  {
    if xs == [] then 0
    else if p(xs[0]) then 0
    else
      var i := FirstIndex(xs[1..], p);
      assert forall j | 1 <= j < 1 + i :: xs[j] == xs[1..][j - 1];
      1 + i
  }

  /** Distinct elements of a set are at most as many as it has. */
  lemma {:induction false} DistinctFit<T>(xs: seq<T>, s: set<T>)
    requires forall i | 0 <= i < |xs| :: xs[i] in s
    requires forall i, j | 0 <= i < j < |xs| :: xs[i] != xs[j]
    ensures |xs| <= |s|
  {
    if xs != [] {
      var last := |xs| - 1;
      DistinctFit(xs[..last], s - {xs[last]});
    }
  }

  lemma SameMembers<T>(xs: seq<T>, s: set<T>)
    requires multiset(xs) == multiset(s)
    ensures forall x :: x in xs <==> x in s
  {
    forall x ensures x in xs <==> x in s {
      assert x in xs <==> x in multiset(xs);
    }
  }

  /** `sorted` of a set of words, by (length, word) or by word. */
  method SortedWords(words: set<string>, byLength: bool) returns (ys: seq<string>)
    ensures multiset(ys) == multiset(words)
    ensures forall w :: w in ys <==> w in words
    ensures if byLength then Sorted(ys, ShortLexLe) else Sorted(ys, Le)
  {
    var listed := Listed(words);
    LeIsPreorder();
    ys := Sort(listed, if byLength then ShortLexLe else Le);
    SameMembers(ys, words);
  }
}
