/** Least general generalization of recurring windows: `_antiunify` and `_antiunify_windows` of
    `buildloop/recurrence.py`. */
module AntiUnification {
  import opened Order
  import opened Templates
  import opened Rewriting

  /** value tuple -> parameter name (the dict holds it with a leading $) */
  type Memo = map<seq<Json>, string>

  // ---------------------------------------------------------------- parameter names

  function Digit(d: nat): char
    requires d < 10
  {
    "0123456789"[d]
  }

  function Decimal(n: nat): (s: string)
    ensures s != []
  {
    if n < 10 then [Digit(n)] else Decimal(n / 10) + [Digit(n % 10)]
  }

  /** "p%d" */
  function ParamName(n: nat): string {
    "p" + Decimal(n)
  }

  lemma {:induction false} DecimalInjective(m: nat, n: nat)
    requires Decimal(m) == Decimal(n)
    ensures m == n
  {
    var a, b := Decimal(m), Decimal(n);
    assert a[|a| - 1] == Digit(m % 10) && b[|b| - 1] == Digit(n % 10);
    assert m % 10 == n % 10;
    if m >= 10 && n >= 10 {
      assert a[..|a| - 1] == Decimal(m / 10) && b[..|b| - 1] == Decimal(n / 10);
      DecimalInjective(m / 10, n / 10);
    }
  }

  lemma ParamNameInjective(m: nat, n: nat)
    requires ParamName(m) == ParamName(n)
    ensures m == n
  {
    assert ParamName(m)[1..] == Decimal(m) && ParamName(n)[1..] == Decimal(n);
    DecimalInjective(m, n);
  }

  /** Tuples of one width; distinct tuples have distinct names, and the names are the first `counter`. */
  ghost predicate ValidMemo(memo: Memo, counter: nat, width: nat) {
    && counter == |memo|
    && AllWide(memo, width) && AllNames(memo, counter)
    && AllGiven(memo, counter)
    && OneTupleEach(memo)
  }

  ghost predicate AllWide(memo: Memo, width: nat) {
    forall v | v in memo :: |v| == width
  }

  ghost predicate AllNames(memo: Memo, counter: nat) {
    forall v | v in memo :: IsName(memo[v], counter)
  }

  /** One of the first `counter` names. */
  ghost predicate IsName(p: string, counter: nat) {
    exists n: nat :: n < counter && p == ParamName(n)
  }

  ghost predicate AllGiven(memo: Memo, counter: nat) {
    forall n: nat | n < counter :: ParamName(n) in memo.Values
  }

  ghost predicate OneTupleEach(memo: Memo) {
    forall v, w | v in memo && w in memo && memo[v] == memo[w] :: v == w
  }

  ghost predicate MemoGrows(small: Memo, big: Memo) {
    forall v | v in small :: v in big && big[v] == small[v]
  }

  // ---------------------------------------------------------------- generalization

  predicate AllEqual(values: seq<Json>) {
    forall i | 0 <= i < |values| :: values[i] == values[0]
  }

  predicate AllObjects(values: seq<Json>) {
    forall i | 0 <= i < |values| :: values[i].Obj? && values[0].Obj? && values[i].fields.Keys == values[0].fields.Keys
  }

  predicate AllLists(values: seq<Json>) {
    forall i | 0 <= i < |values| :: values[i].Arr? && values[0].Arr? && |values[i].items| == |values[0].items|
  }

  function FieldOf(values: seq<Json>, k: string): (vs: seq<Json>)
    requires AllObjects(values) && values != [] && k in values[0].fields
    ensures |vs| == |values| && vs[0] < values[0]
  {
    seq(|values|, i requires 0 <= i < |values| => values[i].fields[k])
  }

  function ItemAt(values: seq<Json>, i: nat): (vs: seq<Json>)
    requires AllLists(values) && values != [] && i < |values[0].items|
    ensures |vs| == |values| && vs[0] < values[0]
  {
    seq(|values|, n requires 0 <= n < |values| => values[n].items[i])
  }

  function Placeholder(p: string): Json {
    Str("$" + p)
  }

  /** `t` generalizes the values position by position: equal subtrees stay, equal shapes are descended
      into, and any other position becomes the parameter the memo has for its values. */
  ghost predicate Generalizes(values: seq<Json>, t: Json, memo: Memo)
    requires values != []
    decreases values[0]
  {
    if AllEqual(values) then t == values[0]
    else if AllObjects(values) then
      && t.Obj? && t.fields.Keys == values[0].fields.Keys
      && forall k | k in values[0].fields :: Generalizes(FieldOf(values, k), t.fields[k], memo)
    else if AllLists(values) then
      && t.Arr? && |t.items| == |values[0].items|
      && forall i | 0 <= i < |values[0].items| :: Generalizes(ItemAt(values, i), t.items[i], memo)
    else values in memo && t == Placeholder(memo[values])
  }

  /** The tuples that become parameters: where the values differ and have no common shape. */
  ghost function Differing(values: seq<Json>): set<seq<Json>>
    requires values != []
    decreases values[0]
  {
    if AllEqual(values) then {}
    else if AllObjects(values) then set k, v | k in values[0].fields && v in Differing(FieldOf(values, k)) :: v
    else if AllLists(values) then set i, v | 0 <= i < |values[0].items| && v in Differing(ItemAt(values, i)) :: v
    else {values}
  }

  /** The same tuples as a list, in the order in which `_antiunify` comes to them: the fields of an object by
      sorted key, the items of a list from the left. */
  ghost function Tuples(values: seq<Json>): seq<seq<Json>>
    requires values != []
    decreases values[0], 1, 0
  {
    if AllEqual(values) then []
    else if AllObjects(values) then FieldTuples(values, SortedSet(values[0].fields.Keys))
    else if AllLists(values) then ItemTuples(values, |values[0].items|)
    else [values]
  }

  ghost function FieldTuples(values: seq<Json>, keys: seq<string>): seq<seq<Json>>
    requires values != [] && AllObjects(values) && forall k | k in keys :: k in values[0].fields
    decreases values[0], 0, |keys|
  {
    if keys == [] then []
    else
      var n := |keys| - 1;
      FieldTuples(values, keys[..n]) + Tuples(FieldOf(values, keys[n]))
  }

  ghost function ItemTuples(values: seq<Json>, n: nat): seq<seq<Json>>
    requires values != [] && AllLists(values) && n <= |values[0].items|
    decreases values[0], 0, n
  {
    if n == 0 then [] else ItemTuples(values, n - 1) + Tuples(ItemAt(values, n - 1))
  }

  /** Every tuple that has no name yet gets the next one. */
  ghost function Named(memo: Memo, tuples: seq<seq<Json>>): Memo {
    if tuples == [] then memo
    else
      var before, v := Named(memo, tuples[..|tuples| - 1]), tuples[|tuples| - 1];
      if v in before then before else before[v := ParamName(|before|)]
  }

  lemma {:induction false} NamedConcat(memo: Memo, a: seq<seq<Json>>, b: seq<seq<Json>>)
    ensures Named(memo, a + b) == Named(Named(memo, a), b)
  {
    hide ParamName;
    if b == [] {
      assert a + b == a;
    } else {
      assert (a + b)[..|a + b| - 1] == a + b[..|b| - 1];
      NamedConcat(memo, a, b[..|b| - 1]);
    }
  }

  ghost function Distinct(tuples: seq<seq<Json>>): set<seq<Json>> {
    set v | v in tuples
  }

  lemma DistinctLast(tuples: seq<seq<Json>>)
    requires tuples != []
    ensures Distinct(tuples) == Distinct(tuples[..|tuples| - 1]) + {tuples[|tuples| - 1]}
  {
    assert tuples == tuples[..|tuples| - 1] + [tuples[|tuples| - 1]];
  }

  lemma {:induction false} NamedKeys(memo: Memo, tuples: seq<seq<Json>>)
    ensures Named(memo, tuples).Keys == memo.Keys + Distinct(tuples)
  {
    hide ParamName;
    if tuples == [] {
      assert Distinct(tuples) == {};
    } else {
      NamedKeys(memo, tuples[..|tuples| - 1]);
      DistinctLast(tuples);
      hide Distinct;
    }
  }

  /** NAMES BY FIRST OCCURRENCE: a tuple's name counts the distinct tuples before its first occurrence. */
  lemma {:induction false} NamedInOrder(tuples: seq<seq<Json>>, i: nat)
    requires i < |tuples| && tuples[i] !in tuples[..i]
    ensures tuples[i] in Named(map[], tuples) && Named(map[], tuples)[tuples[i]] == ParamName(|Distinct(tuples[..i])|)
    decreases |tuples|
  {
    hide ParamName;
    var init := tuples[..|tuples| - 1];
    NamedKeys(map[], init);
    if i < |init| {
      assert init[..i] == tuples[..i];
      NamedInOrder(init, i);
    } else {
      assert init == tuples[..i];
      assert |Named(map[], init)| == |Named(map[], init).Keys|;
    }
  }

  ghost function FieldsDiffering(values: seq<Json>, keys: set<string>): set<seq<Json>>
    requires values != [] && AllObjects(values) && keys <= values[0].fields.Keys
  {
    set k, v | k in keys && v in Differing(FieldOf(values, k)) :: v
  }

  ghost function ItemsDiffering(values: seq<Json>, n: nat): set<seq<Json>>
    requires values != [] && AllLists(values) && n <= |values[0].items|
  {
    set i, v | 0 <= i < n && v in Differing(ItemAt(values, i)) :: v
  }

  lemma {:induction false} GeneralizesGrows(values: seq<Json>, t: Json, small: Memo, big: Memo)
    requires values != [] && Generalizes(values, t, small) && MemoGrows(small, big)
    ensures Generalizes(values, t, big)
    decreases values[0]
  {
    if AllEqual(values) {
    } else if AllObjects(values) {
      forall k | k in values[0].fields ensures Generalizes(FieldOf(values, k), t.fields[k], big) {
        GeneralizesGrows(FieldOf(values, k), t.fields[k], small, big);
      }
    } else if AllLists(values) {
      forall i | 0 <= i < |values[0].items| ensures Generalizes(ItemAt(values, i), t.items[i], big) {
        GeneralizesGrows(ItemAt(values, i), t.items[i], small, big);
      }
    }
  }

  lemma MemoStays(memo: Memo)
    ensures MemoGrows(memo, memo)
  {
  }

  lemma MemoGrowsOn(a: Memo, b: Memo, c: Memo)
    ensures MemoGrows(a, b) && MemoGrows(b, c) ==> MemoGrows(a, c)
  {
  }

  /** What one call of `_antiunify` does to the memo and returns. */
  ghost predicate Generalized(values: seq<Json>, memo: Memo, counter: nat, t: Json, memo': Memo, counter': nat)
    requires values != []
  {
    && ValidMemo(memo', counter', |values|) && MemoGrows(memo, memo') && counter <= counter'
    && Generalizes(values, t, memo') && memo'.Keys == memo.Keys + Differing(values)
    && memo' == Named(memo, Tuples(values))
    && (forall v | v in memo' && v !in memo :: memo'[v] in Params(t))
  }

  /** `_antiunify`. */
  method Antiunify(values: seq<Json>, memo: Memo, counter: nat) returns (t: Json, memo': Memo, counter': nat)
    requires values != [] && ValidMemo(memo, counter, |values|)
    ensures Generalized(values, memo, counter, t, memo', counter')
    decreases values[0], 1
  {
    hide Generalized, ValidMemo, ParamName;
    if AllEqual(values) {
      SharedGeneralized(values, memo, counter);
      return values[0], memo, counter;
    }
    if AllObjects(values) {
      t, memo', counter' := AntiunifyFields(values, memo, counter);
      return;
    }
    if AllLists(values) {
      t, memo', counter' := AntiunifyItems(values, memo, counter);
      return;
    }
    TupleGeneralized(values, memo, counter);
    if values in memo {
      return Placeholder(memo[values]), memo, counter;
    }
    return Placeholder(ParamName(counter)), memo[values := ParamName(counter)], counter + 1;
  }

  lemma NamedOne(memo: Memo, v: seq<Json>)
    ensures Named(memo, [v]) == if v in memo then memo else memo[v := ParamName(|memo|)]
    ensures Named(memo, []) == memo
  {
    hide ParamName;
    assert [v][..0] == [];
  }

  /** A shared value stays as it is. */
  lemma SharedGeneralized(values: seq<Json>, memo: Memo, counter: nat)
    requires values != [] && ValidMemo(memo, counter, |values|) && AllEqual(values)
    ensures Generalized(values, memo, counter, values[0], memo, counter)
  {
    hide ValidMemo, ParamName;
    NamedOne(memo, values);
  }

  /** Values without a common shape become the parameter of their tuple, a new one if need be. */
  lemma TupleGeneralized(values: seq<Json>, memo: Memo, counter: nat)
    requires values != [] && ValidMemo(memo, counter, |values|)
    requires !AllEqual(values) && !AllObjects(values) && !AllLists(values)
    ensures values in memo ==> Generalized(values, memo, counter, Placeholder(memo[values]), memo, counter)
    ensures values !in memo ==>
      Generalized(values, memo, counter, Placeholder(ParamName(counter)), memo[values := ParamName(counter)], counter + 1)
  {
    hide ParamName, AllWide, AllNames, AllGiven, OneTupleEach, Named, AllEqual, AllObjects, AllLists;
    NamedOne(memo, values);
    PlaceholderParams(ParamName(counter));
    if values !in memo {
      OneMoreName(memo, counter, values);
    }
  }

  lemma PlaceholderParams(p: string)
    ensures Params(Placeholder(p)) == {p}
  {
    assert ("$" + p)[1..] == p;
  }

  lemma FreshName(memo: Memo, counter: nat, width: nat)
    requires ValidMemo(memo, counter, width)
    ensures forall v | v in memo :: memo[v] != ParamName(counter)
  {
    hide ParamName, AllGiven, OneTupleEach;
    forall v | v in memo ensures memo[v] != ParamName(counter) {
      assert IsName(memo[v], counter);
      var n: nat :| n < counter && memo[v] == ParamName(n);
      if memo[v] == ParamName(counter) {
        ParamNameInjective(n, counter);
      }
    }
  }

  lemma NextGiven(memo: Memo, counter: nat, values: seq<Json>)
    requires AllGiven(memo, counter) && values !in memo
    ensures AllGiven(memo[values := ParamName(counter)], counter + 1)
  {
    hide ParamName;
    var memo', next := memo[values := ParamName(counter)], counter + 1;
    forall n: nat | n < next ensures ParamName(n) in memo'.Values {
      if n < counter {
        var v :| v in memo && memo[v] == ParamName(n);
        assert memo'[v] == ParamName(n);
      } else {
        assert memo'[values] == ParamName(n);
      }
    }
  }

  lemma NextIsName(p: string, counter: nat)
    ensures IsName(p, counter) ==> IsName(p, counter + 1)
    ensures IsName(ParamName(counter), counter + 1)
  {
    hide ParamName;
    var next := counter + 1;
    assert counter < next;
  }

  /** A new tuple gets the next name. */
  lemma OneMoreName(memo: Memo, counter: nat, values: seq<Json>)
    requires ValidMemo(memo, counter, |values|) && values !in memo
    ensures var memo' := memo[values := ParamName(counter)];
      ValidMemo(memo', counter + 1, |values|) && MemoGrows(memo, memo') && memo'.Keys == memo.Keys + {values}
  {
    FreshName(memo, counter, |values|);
    NextGiven(memo, counter, values);
    NextNames(memo, counter, values);
    NextTuple(memo, values, ParamName(counter));
    Inserted(memo, values, ParamName(counter));
    hide ParamName, AllWide, AllNames, AllGiven, OneTupleEach, MemoGrows;
  }

  lemma Inserted(memo: Memo, values: seq<Json>, p: string)
    ensures var memo' := memo[values := p];
      values !in memo ==> |memo'| == |memo| + 1 && memo'.Keys == memo.Keys + {values} && MemoGrows(memo, memo')
    ensures AllWide(memo, |values|) ==> AllWide(memo[values := p], |values|)
  {
  }

  lemma NextNames(memo: Memo, counter: nat, values: seq<Json>)
    requires AllNames(memo, counter)
    ensures AllNames(memo[values := ParamName(counter)], counter + 1)
  {
    hide ParamName, IsName;
    var memo', next := memo[values := ParamName(counter)], counter + 1;
    forall v | v in memo' ensures IsName(memo'[v], next) {
      NextIsName(memo'[v], counter);
    }
  }

  lemma NextTuple(memo: Memo, values: seq<Json>, p: string)
    requires OneTupleEach(memo) && forall v | v in memo :: memo[v] != p
    ensures OneTupleEach(memo[values := p])
  {
  }

  lemma NoNames(width: nat)
    ensures ValidMemo(map[], 0, width)
  {
  }

  /** The fields done so far, and every new parameter occurs in one of them. */
  ghost predicate FieldsDone(values: seq<Json>, memo: Memo, fields: map<string, Json>, memo': Memo)
    requires values != [] && AllObjects(values)
  {
    && fields.Keys <= values[0].fields.Keys && memo'.Keys == memo.Keys + FieldsDiffering(values, fields.Keys)
    && (forall k | k in fields :: Generalizes(FieldOf(values, k), fields[k], memo'))
    && (forall v | v in memo' && v !in memo :: memo'[v] in Params(Obj(fields)))
  }

  lemma MoreFields(values: seq<Json>, keys: set<string>, k: string)
    requires values != [] && AllObjects(values) && keys <= values[0].fields.Keys && k in values[0].fields
    ensures FieldsDiffering(values, keys + {k}) == FieldsDiffering(values, keys) + Differing(FieldOf(values, k))
  {
    hide Differing;
  }

  lemma ParamsOfFields(memo: Memo, fields: map<string, Json>, mid: Memo, k: string, t: Json, memo': Memo)
    requires k !in fields && MemoGrows(mid, memo')
    requires forall v | v in mid && v !in memo :: mid[v] in Params(Obj(fields))
    requires forall v | v in memo' && v !in mid :: memo'[v] in Params(t)
    ensures forall v | v in memo' && v !in memo :: memo'[v] in Params(Obj(fields[k := t]))
  {
    var fields' := fields[k := t];
    forall v | v in memo' && v !in memo ensures memo'[v] in Params(Obj(fields')) {
      var l := if v in mid then (var l :| l in fields && memo'[v] in Params(fields[l]); l) else k;
      assert l in fields' && memo'[v] in Params(fields'[l]);
    }
  }

  lemma FieldsStep(values: seq<Json>, memo: Memo, fields: map<string, Json>, mid: Memo, k: string, t: Json, memo': Memo)
    requires values != [] && AllObjects(values) && FieldsDone(values, memo, fields, mid)
    requires k in values[0].fields && k !in fields && MemoGrows(mid, memo') && Generalizes(FieldOf(values, k), t, memo')
    requires memo'.Keys == mid.Keys + Differing(FieldOf(values, k))
    requires forall v | v in memo' && v !in mid :: memo'[v] in Params(t)
    ensures FieldsDone(values, memo, fields[k := t], memo')
  {
    hide Generalizes, Differing, Params;
    var fields' := fields[k := t];
    MoreFields(values, fields.Keys, k);
    hide FieldsDiffering;
    assert fields'.Keys == fields.Keys + {k};
    forall l | l in fields ensures Generalizes(FieldOf(values, l), fields[l], memo') {
      GeneralizesGrows(FieldOf(values, l), fields[l], mid, memo');
    }
    ParamsOfFields(memo, fields, mid, k, t, memo');
  }

  /** The dict case: the common keys in sorted order. */
  method AntiunifyFields(values: seq<Json>, memo: Memo, counter: nat) returns (t: Json, memo': Memo, counter': nat)
    requires values != [] && ValidMemo(memo, counter, |values|) && !AllEqual(values) && AllObjects(values)
    ensures Generalized(values, memo, counter, t, memo', counter')
    decreases values[0], 0
  {
    hide FieldsDone, ValidMemo, Params, Generalizes, Differing, Sorted, Named, FieldTuples, MemoGrows, AllEqual, SortedSet;
    MemoStays(memo);
    var keys := SortedKeys(values[0].fields.Keys);
    var fields: map<string, Json> := map[];
    memo', counter' := memo, counter;
    NoFieldsDone(values, memo);
    NoFieldTuples(values, memo);
    for i := 0 to |keys|
      invariant ValidMemo(memo', counter', |values|) && MemoGrows(memo, memo') && counter <= counter'
      invariant fields.Keys == set k | k in keys[..i]
      invariant FieldsDone(values, memo, fields, memo')
      invariant memo' == Named(memo, FieldTuples(values, keys[..i]))
    {
      var k := keys[i];
      assert k in keys && keys[..i + 1] == keys[..i] + [k];
      ghost var mid := memo';
      var sub;
      sub, memo', counter' := Antiunify(FieldOf(values, k), memo', counter');
      FieldsStep(values, memo, fields, mid, k, sub, memo');
      MemoGrowsOn(memo, mid, memo');
      NextFieldTuples(values, memo, keys, i);
      fields := fields[k := sub];
    }
    assert keys[..|keys|] == keys && fields.Keys == values[0].fields.Keys;
    t := Obj(fields);
    AllFieldsDone(values, memo, fields, memo');
    TuplesOfFields(values);
  }

  /** `sorted(keys)` of a key set: each once. */
  method SortedKeys(s: set<string>) returns (keys: seq<string>)
    ensures forall k :: k in keys <==> k in s
    ensures forall i | 0 <= i < |keys| :: keys[i] !in keys[..i]
    ensures keys == SortedSet(s)
  {
    keys := SortedWords(s, false);
    KeysDistinct(keys, s);
    SortedSetIs(s, keys);
  }

  lemma KeysDistinct(keys: seq<string>, s: set<string>)
    requires multiset(keys) == multiset(s)
    ensures forall i | 0 <= i < |keys| :: keys[i] !in keys[..i]
  {
    forall i | 0 <= i < |keys| ensures keys[i] !in keys[..i] {
      assert keys == keys[..i] + [keys[i]] + keys[i + 1..];
      assert multiset(keys)[keys[i]] == multiset(keys[..i])[keys[i]] + 1 + multiset(keys[i + 1..])[keys[i]];
      assert multiset(s)[keys[i]] <= 1;
    }
  }

  lemma NoFieldsDone(values: seq<Json>, memo: Memo)
    requires values != [] && AllObjects(values)
    ensures FieldsDone(values, memo, map[], memo)
  {
  }

  lemma AllFieldsDone(values: seq<Json>, memo: Memo, fields: map<string, Json>, memo': Memo)
    requires values != [] && !AllEqual(values) && AllObjects(values) && fields.Keys == values[0].fields.Keys
    requires FieldsDone(values, memo, fields, memo')
    ensures Generalizes(values, Obj(fields), memo') && memo'.Keys == memo.Keys + Differing(values)
    ensures forall v | v in memo' && v !in memo :: memo'[v] in Params(Obj(fields))
  {
  }

  lemma NoFieldTuples(values: seq<Json>, memo: Memo)
    requires values != [] && AllObjects(values)
    ensures Named(memo, FieldTuples(values, [])) == memo
  {
  }

  lemma TuplesOfFields(values: seq<Json>)
    requires values != [] && !AllEqual(values) && AllObjects(values)
    ensures Tuples(values) == FieldTuples(values, SortedSet(values[0].fields.Keys))
  {
    hide AllEqual, AllObjects, AllLists, FieldTuples, SortedSet;
  }

  lemma NextFieldTuples(values: seq<Json>, memo: Memo, keys: seq<string>, i: nat)
    requires values != [] && AllObjects(values) && i < |keys| && forall k | k in keys :: k in values[0].fields
    ensures Named(memo, FieldTuples(values, keys[..i + 1]))
      == Named(Named(memo, FieldTuples(values, keys[..i])), Tuples(FieldOf(values, keys[i])))
  {
    hide Named, Tuples;
    assert keys[..i + 1][..i] == keys[..i];
    NamedConcat(memo, FieldTuples(values, keys[..i]), Tuples(FieldOf(values, keys[i])));
  }

  lemma NextItemTuples(values: seq<Json>, memo: Memo, n: nat)
    requires values != [] && AllLists(values) && n < |values[0].items|
    ensures Named(memo, ItemTuples(values, n + 1))
      == Named(Named(memo, ItemTuples(values, n)), Tuples(ItemAt(values, n)))
  {
    hide Named, Tuples;
    NamedConcat(memo, ItemTuples(values, n), Tuples(ItemAt(values, n)));
  }

  lemma NoItemTuples(values: seq<Json>, memo: Memo)
    requires values != [] && AllLists(values)
    ensures Named(memo, ItemTuples(values, 0)) == memo
  {
  }

  ghost predicate ItemsDone(values: seq<Json>, memo: Memo, items: seq<Json>, memo': Memo)
    requires values != [] && AllLists(values) && |items| <= |values[0].items|
  {
    && memo'.Keys == memo.Keys + ItemsDiffering(values, |items|)
    && (forall j | 0 <= j < |items| :: Generalizes(ItemAt(values, j), items[j], memo'))
    && (forall v | v in memo' && v !in memo :: memo'[v] in Params(Arr(items)))
  }

  lemma MoreItems(values: seq<Json>, n: nat)
    requires values != [] && AllLists(values) && n < |values[0].items|
    ensures ItemsDiffering(values, n + 1) == ItemsDiffering(values, n) + Differing(ItemAt(values, n))
  {
    hide Differing;
  }

  lemma ParamsOfItems(memo: Memo, items: seq<Json>, mid: Memo, t: Json, memo': Memo)
    requires MemoGrows(mid, memo')
    requires forall v | v in mid && v !in memo :: mid[v] in Params(Arr(items))
    requires forall v | v in memo' && v !in mid :: memo'[v] in Params(t)
    ensures forall v | v in memo' && v !in memo :: memo'[v] in Params(Arr(items + [t]))
  {
    var items' := items + [t];
    forall v | v in memo' && v !in memo ensures memo'[v] in Params(Arr(items')) {
      var j := if v in mid then (var j :| 0 <= j < |items| && memo'[v] in Params(items[j]); j) else |items|;
      assert memo'[v] in Params(items'[j]);
    }
  }

  lemma ItemsDoneStep(values: seq<Json>, memo: Memo, items: seq<Json>, mid: Memo, t: Json, memo': Memo)
    requires values != [] && AllLists(values) && |items| < |values[0].items| && ItemsDone(values, memo, items, mid)
    requires MemoGrows(mid, memo') && Generalizes(ItemAt(values, |items|), t, memo')
    requires memo'.Keys == mid.Keys + Differing(ItemAt(values, |items|))
    requires forall v | v in memo' && v !in mid :: memo'[v] in Params(t)
    ensures ItemsDone(values, memo, items + [t], memo')
  {
    hide Generalizes, Differing, Params;
    var items' := items + [t];
    MoreItems(values, |items|);
    hide ItemsDiffering, AllLists;
    forall j | 0 <= j < |items| ensures Generalizes(ItemAt(values, j), items'[j], memo') {
      GeneralizesGrows(ItemAt(values, j), items[j], mid, memo');
    }
    ParamsOfItems(memo, items, mid, t, memo');
  }

  /** The list case. */
  method AntiunifyItems(values: seq<Json>, memo: Memo, counter: nat) returns (t: Json, memo': Memo, counter': nat)
    requires values != [] && ValidMemo(memo, counter, |values|)
    requires !AllEqual(values) && !AllObjects(values) && AllLists(values)
    ensures Generalized(values, memo, counter, t, memo', counter')
    decreases values[0], 0
  {
    hide ValidMemo, AllObjects, Generalizes, Differing, ItemsDone, Params, Named, ItemTuples;
    NoItemsDone(values, memo);
    NoItemTuples(values, memo);
    var items: seq<Json> := [];
    memo', counter' := memo, counter;
    for i := 0 to |values[0].items|
      invariant |items| == i && ValidMemo(memo', counter', |values|) && MemoGrows(memo, memo') && counter <= counter'
      invariant ItemsDone(values, memo, items, memo')
      invariant memo' == Named(memo, ItemTuples(values, i))
    {
      ghost var mid := memo';
      var sub;
      sub, memo', counter' := Antiunify(ItemAt(values, i), memo', counter');
      ItemsDoneStep(values, memo, items, mid, sub, memo');
      NextItemTuples(values, memo, i);
      items := items + [sub];
    }
    t := Arr(items);
    AllItemsDone(values, memo, items, memo');
  }

  lemma NoItemsDone(values: seq<Json>, memo: Memo)
    requires values != [] && AllLists(values)
    ensures ItemsDone(values, memo, [], memo)
  {
  }

  lemma AllItemsDone(values: seq<Json>, memo: Memo, items: seq<Json>, memo': Memo)
    requires values != [] && !AllEqual(values) && !AllObjects(values) && AllLists(values)
    requires |items| == |values[0].items| && ItemsDone(values, memo, items, memo')
    ensures Generalizes(values, Arr(items), memo') && memo'.Keys == memo.Keys + Differing(values)
    ensures forall v | v in memo' && v !in memo :: memo'[v] in Params(Arr(items))
  {
  }

  // ---------------------------------------------------------------- windows

  /** The j-th logical form of every occurrence. */
  function Column(occurrences: seq<seq<Json>>, j: nat): (c: seq<Json>)
    requires forall o | o in occurrences :: j < |o|
    ensures |c| == |occurrences|
  {
    seq(|occurrences|, n requires 0 <= n < |occurrences| =>
      assert occurrences[n] in occurrences; occurrences[n][j])
  }

  /** Equally long windows, at least one. */
  ghost predicate Occurrences(occurrences: seq<seq<Json>>) {
    occurrences != [] && forall o | o in occurrences :: |o| == |occurrences[0]|
  }

  /** The tuples of the first `n` columns that become parameters. */
  ghost function ColumnsDiffering(occurrences: seq<seq<Json>>, n: nat): set<seq<Json>>
    requires Occurrences(occurrences) && n <= |occurrences[0]|
  {
    set j, v | 0 <= j < n && v in Differing(Column(occurrences, j)) :: v
  }

  ghost function WindowsDiffering(occurrences: seq<seq<Json>>): set<seq<Json>>
    requires Occurrences(occurrences)
  {
    ColumnsDiffering(occurrences, |occurrences[0]|)
  }

  /** The tuples of the first `n` columns, in the order in which they are met. */
  ghost function ColumnTuples(occurrences: seq<seq<Json>>, n: nat): seq<seq<Json>>
    requires Occurrences(occurrences) && n <= |occurrences[0]|
  {
    if n == 0 then [] else ColumnTuples(occurrences, n - 1) + Tuples(Column(occurrences, n - 1))
  }

  /** The names the tuples of the windows get. */
  ghost function MemoOf(occurrences: seq<seq<Json>>): Memo
    requires Occurrences(occurrences)
  {
    Named(map[], ColumnTuples(occurrences, |occurrences[0]|))
  }

  /** The body generalizes the windows column by column, under one memo for exactly the differing
      tuples, named by first occurrence; its parameters are exactly the memo's names, each once and in
      order. */
  ghost predicate Mined(occurrences: seq<seq<Json>>, body: seq<Json>, params: seq<string>, memo: Memo)
    requires Occurrences(occurrences)
  {
    && |body| == |occurrences[0]|
    && ValidMemo(memo, |memo|, |occurrences|) && memo.Keys == WindowsDiffering(occurrences)
    && memo == MemoOf(occurrences)
    && (forall j: nat | j < |body| :: Generalizes(Column(occurrences, j), body[j], memo))
    && memo.Values <= Params(Arr(body))
    && multiset(params) == multiset(memo.Values) && Sorted(params, Le)
  }

  /** The first columns are generalized. */
  ghost predicate ColumnsDone(occurrences: seq<seq<Json>>, body: seq<Json>, memo: Memo)
    requires Occurrences(occurrences) && |body| <= |occurrences[0]|
  {
    && memo.Keys == ColumnsDiffering(occurrences, |body|)
    && (forall i: nat | i < |body| :: Generalizes(Column(occurrences, i), body[i], memo))
    && (forall v | v in memo :: memo[v] in Params(Arr(body)))
  }

  lemma NextColumn(occurrences: seq<seq<Json>>, body: seq<Json>, mid: Memo, t: Json, memo: Memo)
    requires Occurrences(occurrences) && |body| < |occurrences[0]| && ColumnsDone(occurrences, body, mid)
    requires MemoGrows(mid, memo) && Generalizes(Column(occurrences, |body|), t, memo)
    requires memo.Keys == mid.Keys + Differing(Column(occurrences, |body|))
    requires forall v | v in memo && v !in mid :: memo[v] in Params(t)
    ensures ColumnsDone(occurrences, body + [t], memo)
  {
    hide Generalizes, Differing, Params;
    OneMoreColumn(occurrences, |body|);
    hide ColumnsDiffering;
    ColumnParams(body, mid, t, memo);
    var body' := body + [t];
    forall i: nat | i < |body| ensures Generalizes(Column(occurrences, i), body'[i], memo) {
      GeneralizesGrows(Column(occurrences, i), body[i], mid, memo);
    }
  }

  lemma AllColumns(occurrences: seq<seq<Json>>, body: seq<Json>, params: seq<string>, memo: Memo)
    requires Occurrences(occurrences) && |body| == |occurrences[0]| && ColumnsDone(occurrences, body, memo)
    requires exists counter :: ValidMemo(memo, counter, |occurrences|)
    requires multiset(params) == multiset(memo.Values) && Sorted(params, Le) && memo == MemoOf(occurrences)
    ensures Mined(occurrences, body, params, memo)
  {
    hide Generalizes, Params, ColumnsDiffering;
  }

  /** `_antiunify_windows`. */
  method AntiunifyWindows(occurrences: seq<seq<Json>>) returns (body: seq<Json>, params: seq<string>, ghost memo: Memo)
    requires Occurrences(occurrences)
    ensures Mined(occurrences, body, params, memo)
    ensures |body| == |occurrences[0]| && exists names :: Mined(occurrences, body, params, names)
  {
    hide Generalized, Generalizes, Differing, Params, ParamName, ValidMemo, ColumnsDiffering, ColumnsDone, Mined, MemoGrows,
      Sorted, Named, ColumnTuples, Tuples, WindowsDiffering, Column, MemoOf;
    var m: Memo, counter := map[], 0;
    body := [];
    NoNames(|occurrences|);
    NoColumns(occurrences);
    for j := 0 to |occurrences[0]|
      invariant |body| == j && ValidMemo(m, counter, |occurrences|) && ColumnsDone(occurrences, body, m)
      invariant m == Named(map[], ColumnTuples(occurrences, j))
    {
      ghost var mid, before := m, counter;
      var t;
      t, m, counter := Antiunify(Column(occurrences, j), m, counter);
      ColumnStep(occurrences, body, mid, before, t, m, counter);
      body := body + [t];
    }
    params := SortedWords(m.Values, false);
    memo := m;
    MemoIs(occurrences);
    AllColumns(occurrences, body, params, memo);
  }

  lemma MemoIs(occurrences: seq<seq<Json>>)
    requires Occurrences(occurrences)
    ensures MemoOf(occurrences) == Named(map[], ColumnTuples(occurrences, |occurrences[0]|))
  {
    hide Named, ColumnTuples;
  }

  lemma ColumnStep(occurrences: seq<seq<Json>>, body: seq<Json>, mid: Memo, before: nat, t: Json, memo: Memo, counter: nat)
    requires Occurrences(occurrences) && |body| < |occurrences[0]| && ColumnsDone(occurrences, body, mid)
    requires mid == Named(map[], ColumnTuples(occurrences, |body|))
    requires Generalized(Column(occurrences, |body|), mid, before, t, memo, counter)
    ensures ValidMemo(memo, counter, |occurrences|) && ColumnsDone(occurrences, body + [t], memo)
    ensures memo == Named(map[], ColumnTuples(occurrences, |body| + 1))
  {
    hide Generalizes, Differing, Params, ValidMemo, ColumnsDone, MemoGrows, Named, ColumnTuples, Tuples;
    NextColumn(occurrences, body, mid, t, memo);
    NextColumnTuples(occurrences, |body|);
  }

  lemma NoColumns(occurrences: seq<seq<Json>>)
    requires Occurrences(occurrences)
    ensures ColumnsDone(occurrences, [], map[])
    ensures Named(map[], ColumnTuples(occurrences, 0)) == map[]
  {
  }

  lemma NextColumnTuples(occurrences: seq<seq<Json>>, n: nat)
    requires Occurrences(occurrences) && n < |occurrences[0]|
    ensures Named(map[], ColumnTuples(occurrences, n + 1))
      == Named(Named(map[], ColumnTuples(occurrences, n)), Tuples(Column(occurrences, n)))
  {
    hide Named, Tuples;
    NamedConcat(map[], ColumnTuples(occurrences, n), Tuples(Column(occurrences, n)));
  }

  lemma OneMoreColumn(occurrences: seq<seq<Json>>, n: nat)
    requires Occurrences(occurrences) && n < |occurrences[0]|
    ensures ColumnsDiffering(occurrences, n + 1)
      == ColumnsDiffering(occurrences, n) + Differing(Column(occurrences, n))
  {
    hide Differing;
  }

  lemma ColumnParams(body: seq<Json>, mid: Memo, t: Json, memo: Memo)
    requires MemoGrows(mid, memo) && forall v | v in mid :: mid[v] in Params(Arr(body))
    requires forall v | v in memo && v !in mid :: memo[v] in Params(t)
    ensures forall v | v in memo :: memo[v] in Params(Arr(body + [t]))
  {
    var body' := body + [t];
    forall v | v in memo ensures memo[v] in Params(Arr(body')) {
      var i := if v in mid then (var i :| 0 <= i < |body| && memo[v] in Params(body[i]); i) else |body|;
      assert memo[v] in Params(body'[i]);
    }
  }

  // ---------------------------------------------------------------- least general

  /** The generalization of a tuple under a memo, as a value. */
  ghost function Generalization(values: seq<Json>, memo: Memo): Json
    requires values != []
    decreases values[0]
  {
    if AllEqual(values) then values[0]
    else if AllObjects(values) then
      Obj(map k | k in values[0].fields :: Generalization(FieldOf(values, k), memo))
    else if AllLists(values) then
      Arr(seq(|values[0].items|, i requires 0 <= i < |values[0].items| => Generalization(ItemAt(values, i), memo)))
    else Placeholder(if values in memo then memo[values] else "")
  }

  lemma {:induction false} GeneralizationUnique(values: seq<Json>, t: Json, memo: Memo)
    requires values != [] && Generalizes(values, t, memo)
    ensures t == Generalization(values, memo)
    decreases values[0]
  {
    if AllEqual(values) {
    } else if AllObjects(values) {
      forall k | k in values[0].fields ensures t.fields[k] == Generalization(FieldOf(values, k), memo) {
        GeneralizationUnique(FieldOf(values, k), t.fields[k], memo);
      }
      assert t.fields == Generalization(values, memo).fields;
    } else if AllLists(values) {
      forall i | 0 <= i < |values[0].items| ensures t.items[i] == Generalization(ItemAt(values, i), memo) {
        GeneralizationUnique(ItemAt(values, i), t.items[i], memo);
      }
      assert t.items == Generalization(values, memo).items;
    }
  }

  /** The one body that can be mined from the windows. */
  ghost function BodyOf(occurrences: seq<seq<Json>>): (body: seq<Json>)
    requires Occurrences(occurrences)
  {
    seq(|occurrences[0]|, j requires 0 <= j < |occurrences[0]| =>
      Generalization(Column(occurrences, j), MemoOf(occurrences)))
  }

  /** The first `n` parameter names. */
  ghost function FirstNames(n: nat): set<string> {
    set i: nat | i < n :: ParamName(i)
  }

  /** MINING IS A FUNCTION OF THE WINDOWS: body, parameters and memo are determined by them, and the
      parameters by the number of differing tuples alone. */
  lemma MinedUnique(occurrences: seq<seq<Json>>, body: seq<Json>, params: seq<string>, memo: Memo)
    requires Occurrences(occurrences) && Mined(occurrences, body, params, memo)
    ensures memo == MemoOf(occurrences) && body == BodyOf(occurrences)
    ensures params == SortedSet(FirstNames(|WindowsDiffering(occurrences)|))
    ensures |params| == |WindowsDiffering(occurrences)|
  {
    hide Generalizes, Generalization, AllWide, AllNames, AllGiven, OneTupleEach, WindowsDiffering, Params, Sorted,
      MemoOf, FirstNames, SortedSet;
    ValuesAreFirst(memo, |occurrences|);
    SortedSetIs(memo.Values, params);
    assert |memo| == |memo.Keys|;
    FirstNamesCount(|memo|);
    assert |params| == |multiset(params)| == |memo.Values|;
    forall j: nat | j < |body| ensures body[j] == BodyOf(occurrences)[j] {
      GeneralizationUnique(Column(occurrences, j), body[j], memo);
    }
  }

  lemma {:induction false} FirstNamesCount(n: nat)
    ensures |FirstNames(n)| == n
  {
    hide ParamName;
    if n == 0 {
      assert FirstNames(0) == {};
    } else {
      FirstNamesCount(n - 1);
      forall i: nat | i < n - 1 ensures ParamName(i) != ParamName(n - 1) {
        if ParamName(i) == ParamName(n - 1) {
          ParamNameInjective(i, n - 1);
        }
      }
      assert FirstNames(n) == FirstNames(n - 1) + {ParamName(n - 1)};
    }
  }

  lemma ValuesAreFirst(memo: Memo, width: nat)
    requires ValidMemo(memo, |memo|, width)
    ensures memo.Values == FirstNames(|memo|)
  {
    hide ParamName;
    forall p | p in memo.Values ensures p in FirstNames(|memo|) {
      var v :| v in memo && memo[v] == p;
      assert IsName(memo[v], |memo|);
    }
  }

  /** The values the bindings give to a parameter. */
  ghost function Bound(bs: seq<Binding>, p: string): seq<Json>
    requires forall i | 0 <= i < |bs| :: p in bs[i]
  {
    seq(|bs|, i requires 0 <= i < |bs| => bs[i][p])
  }

  /** A template that fits every value fits their generalization, by the substitution that sends each
      of its parameters to the generalization of what the parameter was bound to. */
  lemma {:induction false} TemplateFitsGeneralization(
      u: Json, values: seq<Json>, bs: seq<Binding>, memo: Memo, sigma: Binding)
    requires values != [] && |bs| == |values|
    requires forall i | 0 <= i < |values| :: Fits(u, values[i], bs[i])
    requires forall p, i | p in Params(u) && 0 <= i < |bs| :: p in bs[i]
    requires forall p | p in Params(u) :: p in sigma && sigma[p] == Generalization(Bound(bs, p), memo)
    ensures Fits(u, Generalization(values, memo), sigma)
    decreases u
  {
    var g := Generalization(values, memo);
    if IsParam(u) {
      assert Bound(bs, u.s[1..]) == values;
    } else if u.Obj? {
      assert AllObjects(values) by {
        forall i | 0 <= i < |values| ensures values[i].Obj? && values[i].fields.Keys == u.fields.Keys {
        }
      }
      forall k | k in u.fields ensures k in g.fields && Fits(u.fields[k], g.fields[k], sigma) {
        assert forall p | p in Params(u.fields[k]) :: p in Params(u);
        TemplateFitsGeneralization(u.fields[k], FieldOf(values, k), bs, memo, sigma);
        assert AllEqual(values) ==> AllEqual(FieldOf(values, k));
      }
    } else if u.Arr? {
      assert AllLists(values) by {
        forall i | 0 <= i < |values| ensures values[i].Arr? && |values[i].items| == |u.items| {
        }
      }
      forall j | 0 <= j < |u.items| ensures Fits(u.items[j], g.items[j], sigma) {
        assert forall p | p in Params(u.items[j]) :: p in Params(u);
        TemplateFitsGeneralization(u.items[j], ItemAt(values, j), bs, memo, sigma);
        assert AllEqual(values) ==> AllEqual(ItemAt(values, j));
      }
    } else {
      assert forall i | 0 <= i < |values| :: values[i] == u;
    }
  }

  /** LEAST GENERAL. Any other body that matches all the occurrences also matches the mined body
      itself, by one substitution of its parameters: the mined body is an instance of it. */
  lemma LeastGeneral(occurrences: seq<seq<Json>>, body: seq<Json>, params: seq<string>, memo: Memo,
                     other: seq<Json>, bs: seq<Binding>) returns (sigma: Binding)
    requires Occurrences(occurrences) && Mined(occurrences, body, params, memo)
    requires |other| == |body| && |bs| == |occurrences|
    requires forall n | 0 <= n < |occurrences| :: Fits(Arr(other), Arr(occurrences[n]), bs[n])
    ensures Fits(Arr(other), Arr(body), sigma)
  {
    forall p, n | p in Params(Arr(other)) && 0 <= n < |bs| ensures p in bs[n] {
      FitsIsSubst(Arr(other), Arr(occurrences[n]), bs[n]);
    }
    sigma := map p | p in Params(Arr(other)) :: Generalization(Bound(bs, p), memo);
    forall j: nat | j < |body| ensures Fits(other[j], body[j], sigma) {
      var column := Column(occurrences, j);
      forall n | 0 <= n < |column| ensures Fits(other[j], column[n], bs[n]) {
        assert Fits(Arr(other), Arr(occurrences[n]), bs[n]);
        assert occurrences[n] in occurrences;
      }
      assert forall p | p in Params(other[j]) :: p in Params(Arr(other));
      TemplateFitsGeneralization(other[j], column, bs, memo, sigma);
      GeneralizationUnique(column, body[j], memo);
    }
  }
}
