/** `_pytest_shard` of `run_regression.py`: an exact partition of the test files into n shards,
    balanced by longest-processing-time-first. */
module Shards {
  import opened Order
  import opened Scheduling

  /** A value of the weights file. Booleans count as the numbers 1 and 0; anything else but a number falls
      back to the default. */
  datatype Weight = Number(seconds: real) | Boolean(value: bool) | NotANumber

  /** The weights file: missing, unreadable or not an object; or file name -> value. */
  datatype WeightsFile = Unreadable | Readable(weights: map<string, Weight>)

  const DEFAULT_FILE_WEIGHT: real := 1.0

  function W(weights: map<string, Weight>, f: string): real {
    if f !in weights then DEFAULT_FILE_WEIGHT
    else
      match weights[f]
      case Number(seconds) => seconds
      case Boolean(value) => if value then 1.0 else 0.0
      case NotANumber => DEFAULT_FILE_WEIGHT
  }

  function Ws(weights: map<string, Weight>, files: seq<string>): seq<real> {
    seq(|files|, i requires 0 <= i < |files| => W(weights, files[i]))
  }

  /** Files are visited heaviest first, equal weights by name. */
  predicate VisitedBefore(weights: map<string, Weight>, f: string, g: string) {
    W(weights, f) > W(weights, g) || (W(weights, f) == W(weights, g) && Le(f, g))
  }

  /** The files placed on shard `m`, in the order they were placed. */
  function PartOf(files: seq<string>, at: seq<nat>, m: nat): seq<string>
    requires |files| == |at|
  {
    if files == [] then []
    else
      var k := |files| - 1;
      PartOf(files[..k], at[..k], m) + if at[k] == m then [files[k]] else []
  }

  /** The fallback: position modulo the number of shards. */
  function Parity(length: nat, n: nat): (at: seq<nat>)
    requires n > 0
    ensures |at| == length && Placed(at, n)
  {
    seq(length, i requires 0 <= i < length => i % n)
  }

  /** Every file went to the lightest shard at the time, the first one on a tie. */
  ghost predicate GreedyPlaced(ws: seq<real>, at: seq<nat>, n: nat)
    requires |ws| == |at|
  {
    ws == [] ||
      var k := |ws| - 1;
      && FirstLightest(ws[..k], at[..k], n, at[k])
      && GreedyPlaced(ws[..k], at[..k], n)
  }

  ghost predicate FirstLightest(ws: seq<real>, at: seq<nat>, n: nat, k: nat)
    requires |ws| == |at|
  {
    && k < n
    && (forall m: nat | m < n :: LoadOf(ws, at, k) <= LoadOf(ws, at, m))
    && (forall m: nat | m < k :: LoadOf(ws, at, k) < LoadOf(ws, at, m))
  }

  ghost predicate VisitOrder(weights: map<string, Weight>, files: seq<string>, order: seq<string>) {
    multiset(order) == multiset(files) && Sorted(order, (f, g) => VisitedBefore(weights, f, g))
  }

  /** The plan the shards are read off: a visiting order and a placement. */
  ghost predicate Plan(file: WeightsFile, files: seq<string>, n: nat, order: seq<string>, at: seq<nat>)
    requires n > 0
  {
    match file
    case Unreadable => order == files && at == Parity(|files|, n)
    case Readable(weights) =>
      && VisitOrder(weights, files, order) && |at| == |order|
      && GreedyPlaced(Ws(weights, order), at, n)
  }

  /** What one call returns: the i-th part of the plan. */
  ghost predicate IsShard(file: WeightsFile, files: seq<string>, n: nat, i: nat, shard: seq<string>)
    requires n > 0
  {
    exists order, at :: Plan(file, files, n, order, at) && |at| == |order|
      && multiset(shard) == multiset(PartOf(order, at, i))
  }

  lemma VisitedBeforeIsPreorder(weights: map<string, Weight>)
    ensures TotalPreorder((f, g) => VisitedBefore(weights, f, g))
  {
    LeIsPreorder();
    var le := (f, g) => VisitedBefore(weights, f, g);
    forall f, g, h | le(f, g) && le(g, h) ensures le(f, h) {
      if W(weights, f) == W(weights, h) {
        LeTransitive(f, g, h);
      }
    }
  }

  method PytestShard(files: seq<string>, shardI: nat, shardN: nat, file: WeightsFile) returns (shard: seq<string>)
    requires shardI < shardN
    ensures IsShard(file, files, shardN, shardI, shard)
    ensures if file.Readable? then Sorted(shard, Le) else shard == PartOf(files, Parity(|files|, shardN), shardI)
  {
    if file.Unreadable? {
      shard := [];
      var at := Parity(|files|, shardN);
      for i := 0 to |files|
        invariant shard == PartOf(files[..i], at[..i], shardI)
      {
        assert files[..i + 1][..i] == files[..i] && at[..i + 1][..i] == at[..i];
        if i % shardN == shardI {
          shard := shard + [files[i]];
        }
      }
      assert files[..|files|] == files && at[..|files|] == at;
    } else {
      VisitedBeforeIsPreorder(file.weights);
      var order := Sort(files, (f, g) => VisitedBefore(file.weights, f, g));
      ghost var at;
      shard, at := Balance(order, shardI, shardN, file.weights);
      LeIsPreorder();
      shard := Sort(shard, Le);
      assert Plan(file, files, shardN, order, at);
    }
  }

  /** The lists `loads` and `assign` after placing the files of `order` as `at` says. */
  ghost predicate Balanced(weights: map<string, Weight>, order: seq<string>, at: seq<nat>, n: nat,
                           loads: seq<real>, assign: seq<seq<string>>)
  {
    && |at| == |order| && |loads| == n == |assign|
    && (forall m: nat | m < n :: loads[m] == LoadOf(Ws(weights, order), at, m))
    && (forall m: nat | m < n :: assign[m] == PartOf(order, at, m))
  }

  lemma PlaceOne(weights: map<string, Weight>, order: seq<string>, at: seq<nat>, n: nat,
                 loads: seq<real>, assign: seq<seq<string>>, f: string, k: nat)
    requires Balanced(weights, order, at, n, loads, assign) && k < n
    ensures Balanced(weights, order + [f], at + [k], n,
                     loads[k := loads[k] + W(weights, f)], assign[k := assign[k] + [f]])
  {
    LastPlaced(weights, order, at, f, k);
    forall m: nat | m < n
      ensures LoadOf(Ws(weights, order + [f]), at + [k], m) == loads[m] + if m == k then W(weights, f) else 0.0
      ensures PartOf(order + [f], at + [k], m) == assign[m] + if m == k then [f] else []
    {
    }
  }

  lemma LastPlaced(weights: map<string, Weight>, order: seq<string>, at: seq<nat>, f: string, k: nat)
    requires |at| == |order|
    ensures (order + [f])[..|order|] == order && (at + [k])[..|at|] == at
    ensures Ws(weights, order + [f]) == Ws(weights, order) + [W(weights, f)]
    ensures (Ws(weights, order) + [W(weights, f)])[..|order|] == Ws(weights, order)
  {
  }

  lemma GreedyPlaceOne(weights: map<string, Weight>, order: seq<string>, at: seq<nat>, n: nat,
                       loads: seq<real>, assign: seq<seq<string>>, f: string, k: nat)
    requires Balanced(weights, order, at, n, loads, assign) && GreedyPlaced(Ws(weights, order), at, n)
    requires k < n && (forall m: nat | m < n :: loads[k] <= loads[m]) && (forall m: nat | m < k :: loads[k] < loads[m])
    ensures GreedyPlaced(Ws(weights, order + [f]), at + [k], n)
  {
    LastPlaced(weights, order, at, f, k);
    assert FirstLightest(Ws(weights, order), at, n, k);
  }

  /** The greedy loop: each visited file joins the lightest shard. */
  method Balance(order: seq<string>, shardI: nat, shardN: nat, weights: map<string, Weight>)
      returns (shard: seq<string>, ghost at: seq<nat>)
    requires shardI < shardN
    ensures |at| == |order| && GreedyPlaced(Ws(weights, order), at, shardN)
    ensures shard == PartOf(order, at, shardI)
  {
    var loads := seq(shardN, _ => 0.0);
    var assign: seq<seq<string>> := seq(shardN, _ => []);
    at := [];
    assert Balanced(weights, [], [], shardN, loads, assign);
    hide Balanced, GreedyPlaced;
    AtStart(weights, order, shardN);
    for i := 0 to |order|
      invariant |at| == i && |loads| == shardN == |assign|
      invariant Balanced(weights, order[..i], at, shardN, loads, assign)
      invariant GreedyPlaced(Ws(weights, order[..i]), at, shardN)
    {
      var f := order[i];
      var k := Lightest(loads);
      assert order[..i + 1] == order[..i] + [f];
      GreedyPlaceOne(weights, order[..i], at, shardN, loads, assign, f, k);
      PlaceOne(weights, order[..i], at, shardN, loads, assign, f, k);
      at := at + [k];
      assign := assign[k := assign[k] + [f]];
      loads := loads[k := loads[k] + W(weights, f)];
    }
    assert order[..|order|] == order;
    ReadOff(weights, order, at, shardN, loads, assign, shardI);
    shard := assign[shardI];
  }

  lemma AtStart(weights: map<string, Weight>, order: seq<string>, n: nat)
    ensures order[..0] == [] && GreedyPlaced(Ws(weights, order[..0]), [], n)
  {
  }

  lemma ReadOff(weights: map<string, Weight>, order: seq<string>, at: seq<nat>, n: nat,
                loads: seq<real>, assign: seq<seq<string>>, i: nat)
    requires Balanced(weights, order, at, n, loads, assign) && i < n
    ensures |assign| == n && |at| == |order| && assign[i] == PartOf(order, at, i)
  {
  }

  /** The lightest shard; on a tie the one with the lowest index. */
  method Lightest(loads: seq<real>) returns (k: nat)
    requires loads != []
    ensures k < |loads| && forall m: nat | m < |loads| :: loads[k] <= loads[m]
    ensures forall m: nat | m < k :: loads[k] < loads[m]
  {
    k := 0;
    for j := 1 to |loads|
      invariant k < j
      invariant forall m: nat | m < j :: loads[k] <= loads[m]
      invariant forall m: nat | m < k :: loads[k] < loads[m]
    {
      if loads[j] < loads[k] {
        k := j;
      }
    }
  }

  // ---------------------------------------------------------------- what the plan goes by

  /** A file weighs the number the weights file has for it, true and false counting as 1 and 0, and 1.0 where
      it has none. */
  lemma WeighedBy(weights: map<string, Weight>, f: string, seconds: real)
    ensures f !in weights || weights[f] == NotANumber ==> W(weights, f) == 1.0
    ensures f in weights && weights[f] == Number(seconds) ==> W(weights, f) == seconds
    ensures f in weights && weights[f] == Boolean(true) ==> W(weights, f) == 1.0
    ensures f in weights && weights[f] == Boolean(false) ==> W(weights, f) == 0.0
  {
  }

  /** HEAVIEST FIRST, then by name: the order in which a plan places the files. */
  lemma HeaviestFirst(weights: map<string, Weight>, files: seq<string>, n: nat, order: seq<string>, at: seq<nat>,
                      i: nat, j: nat)
    requires n > 0 && Plan(Readable(weights), files, n, order, at) && i < j < |order|
    ensures W(weights, order[i]) >= W(weights, order[j])
    ensures W(weights, order[i]) == W(weights, order[j]) ==> Le(order[i], order[j])
  {
    var le := (f, g) => VisitedBefore(weights, f, g);
    assert le(order[i], order[j]);
  }

  /** PARITY: without a weights file the k-th file of a shard is the one at position i + k n. */
  lemma {:induction false} ParityShard(files: seq<string>, n: nat, i: nat, k: nat)
    requires i < n && k < |PartOf(files, Parity(|files|, n), i)|
    ensures i + k * n < |files| && PartOf(files, Parity(|files|, n), i)[k] == files[i + k * n]
  {
    var m: nat := |files| - 1;
    var init := files[..m];
    assert Parity(|files|, n)[..m] == Parity(m, n);
    hide Parity;
    if k < |PartOf(init, Parity(m, n), i)| {
      ParityShard(init, n, i, k);
    } else {
      LastOfShard(files, n, i, k);
    }
  }

  lemma LastOfShard(files: seq<string>, n: nat, i: nat, k: nat)
    requires files != [] && i < n && k < |PartOf(files, Parity(|files|, n), i)|
    requires k >= |PartOf(files[..|files| - 1], Parity(|files| - 1, n), i)|
    ensures |files| - 1 == i + k * n && PartOf(files, Parity(|files|, n), i)[k] == files[|files| - 1]
  {
    hide *;
    var m: nat := |files| - 1;
    var q := Quotient(m, n);
    ParityLength(files[..m], n, i);
    CountedBelow(m, n, i, q);
    OnlyAtRest(files, n, i);
  }

  /** The last file joins the shard of its position. */
  lemma OnlyAtRest(files: seq<string>, n: nat, i: nat)
    requires files != [] && i < n
    ensures var m: nat := |files| - 1;
      PartOf(files, Parity(|files|, n), i)
        == PartOf(files[..m], Parity(m, n), i) + if m % n == i then [files[m]] else []
  {
    var m: nat := |files| - 1;
    assert Parity(|files|, n)[..m] == Parity(m, n);
  }

  lemma Quotient(m: nat, n: nat) returns (q: nat)
    requires n > 0
    ensures q == m / n && m == q * n + m % n
  {
    q := m / n;
  }

  /** How many of the positions below `m` belong to shard `i`. */
  function Below(m: nat, n: nat, i: nat): nat
    requires i < n
  {
    if m == 0 then 0 else Below(m - 1, n, i) + if (m - 1) % n == i then 1 else 0
  }

  lemma {:induction false} ParityLength(files: seq<string>, n: nat, i: nat)
    requires i < n
    ensures |PartOf(files, Parity(|files|, n), i)| == Below(|files|, n, i)
  {
    if files != [] {
      var m := |files| - 1;
      assert Parity(|files|, n)[..m] == Parity(m, n);
      ParityLength(files[..m], n, i);
    }
  }

  lemma {:induction false} CountedBelow(m: nat, n: nat, i: nat, q: nat)
    requires i < n && q == m / n
    ensures Below(m, n, i) == q + if i < m % n then 1 else 0
  {
    if m > 0 {
      var p := m - 1;
      CountedBelow(p, n, i, p / n);
      NextPosition(p, n);
    }
  }

  lemma NextPosition(p: nat, n: nat)
    requires n > 0
    ensures if p % n == n - 1 then (p + 1) / n == p / n + 1 && (p + 1) % n == 0
      else (p + 1) / n == p / n && (p + 1) % n == p % n + 1
  {
    var q, r := p / n, p % n;
    assert p == q * n + r;
    if r == n - 1 {
      assert p + 1 == (q + 1) * n;
      DivisionIs(p + 1, n, q + 1, 0);
    } else {
      DivisionIs(p + 1, n, q, r + 1);
    }
  }

  lemma DivisionIs(p: nat, n: nat, q: nat, r: nat)
    requires r < n && p == q * n + r
    ensures p / n == q && p % n == r
  {
    var d, e := p / n, p % n;
    assert p == d * n + e && e < n;
    assert (q - d) * n == e - r by {
      Distribute(q, d, n);
    }
    SmallMultiple(q - d, n, e - r);
  }

  lemma Distribute(q: int, d: int, n: int)
    ensures (q - d) * n == q * n - d * n
  {
  }

  lemma SmallMultiple(k: int, n: int, x: int)
    requires n > 0 && k * n == x && -n < x < n
    ensures k == 0
  {
    if k > 0 {
      AtLeast(k, n);
    } else if k < 0 {
      AtLeast(-k, n);
      Opposite(k, n);
    }
  }

  lemma {:induction false} AtLeast(k: int, n: int)
    requires n > 0 && k > 0
    ensures k * n >= n
  {
    if k > 1 {
      AtLeast(k - 1, n);
      Distribute(k, 1, n);
    }
  }

  lemma Opposite(k: int, n: int)
    ensures (-k) * n == -(k * n)
  {
  }

  // ---------------------------------------------------------------- exact partition

  ghost function Union(parts: seq<seq<string>>): multiset<string> {
    if parts == [] then multiset{} else Union(parts[..|parts| - 1]) + multiset(parts[|parts| - 1])
  }

  /** How often `f` occurs in the parts 0 .. n - 1 of a placement. */
  ghost function PartsCount(files: seq<string>, at: seq<nat>, n: nat, f: string): nat
    requires |files| == |at|
  {
    if n == 0 then 0 else PartsCount(files, at, n - 1, f) + multiset(PartOf(files, at, n - 1))[f]
  }

  lemma PartGrows(files: seq<string>, at: seq<nat>, m: nat, f: string)
    requires |files| == |at| > 0
    ensures var k := |files| - 1;
      multiset(PartOf(files, at, m))[f] ==
      multiset(PartOf(files[..k], at[..k], m))[f] + if at[k] == m && files[k] == f then 1 else 0
  {
  }

  lemma {:induction false} PartsCountStep(files: seq<string>, at: seq<nat>, n: nat, f: string)
    requires |files| == |at| > 0
    ensures var k := |files| - 1;
      PartsCount(files, at, n, f) ==
      PartsCount(files[..k], at[..k], n, f) + if at[k] < n && files[k] == f then 1 else 0
  {
    hide PartOf;
    if n > 0 {
      PartGrows(files, at, n - 1, f);
      PartsCountStep(files, at, n - 1, f);
    }
  }

  lemma {:induction false} PartsCountOfNothing(n: nat, f: string)
    ensures PartsCount([], [], n, f) == 0
  {
    if n > 0 {
      PartsCountOfNothing(n - 1, f);
    }
  }

  /** Whatever the placement, its parts hold every file exactly as often as it was given. */
  lemma {:induction false} PartsConserve(files: seq<string>, at: seq<nat>, n: nat, f: string)
    requires |files| == |at| && Placed(at, n)
    ensures PartsCount(files, at, n, f) == multiset(files)[f]
  {
    if files == [] {
      PartsCountOfNothing(n, f);
    } else {
      var k := |files| - 1;
      PartsCountStep(files, at, n, f);
      PartsConserve(files[..k], at[..k], n, f);
      LastApart(files);
    }
  }

  lemma {:induction false} UnionOfParts(shards: seq<seq<string>>, files: seq<string>, at: seq<nat>, f: string)
    requires |files| == |at| && forall m: nat | m < |shards| :: multiset(shards[m]) == multiset(PartOf(files, at, m))
    ensures Union(shards)[f] == PartsCount(files, at, |shards|, f)
  {
    hide PartOf;
    if shards != [] {
      var k := |shards| - 1;
      assert multiset(shards[k]) == multiset(PartOf(files, at, k));
      var rest := shards[..k];
      forall m: nat | m < |rest| ensures multiset(rest[m]) == multiset(PartOf(files, at, m)) {
        assert rest[m] == shards[m];
      }
      UnionOfParts(rest, files, at, f);
    }
  }

  lemma FirstLightestUnique(ws: seq<real>, at: seq<nat>, n: nat, k: nat, k': nat)
    requires |ws| == |at| && FirstLightest(ws, at, n, k) && FirstLightest(ws, at, n, k')
    ensures k == k'
  {
    assert LoadOf(ws, at, k) <= LoadOf(ws, at, k') <= LoadOf(ws, at, k);
  }

  lemma {:induction false} GreedyUnique(ws: seq<real>, at: seq<nat>, at': seq<nat>, n: nat)
    requires |ws| == |at| == |at'| && GreedyPlaced(ws, at, n) && GreedyPlaced(ws, at', n)
    ensures at == at'
  {
    if ws != [] {
      var k := |ws| - 1;
      GreedyUnique(ws[..k], at[..k], at'[..k], n);
      FirstLightestUnique(ws[..k], at[..k], n, at[k], at'[k]);
      assert at == at[..k] + [at[k]] && at' == at'[..k] + [at'[k]];
    }
  }

  lemma {:induction false} GreedyIsListScheduled(ws: seq<real>, at: seq<nat>, n: nat)
    requires |ws| == |at| && GreedyPlaced(ws, at, n)
    ensures ListScheduled(ws, at, n)
  {
    if ws != [] {
      GreedyIsListScheduled(ws[..|ws| - 1], at[..|ws| - 1], n);
    }
  }

  lemma VisitKeyInjective(weights: map<string, Weight>, files: seq<string>)
    ensures KeyInjective(files, (f, g) => VisitedBefore(weights, f, g))
  {
    forall i, j | 0 <= i < |files| && 0 <= j < |files|
      && VisitedBefore(weights, files[i], files[j]) && VisitedBefore(weights, files[j], files[i])
      ensures files[i] == files[j]
    {
      LeAntisymmetric(files[i], files[j]);
    }
  }

  /** All calls read their shards off one and the same plan. */
  lemma PlanUnique(file: WeightsFile, files: seq<string>, n: nat,
                   order: seq<string>, at: seq<nat>, order': seq<string>, at': seq<nat>)
    requires n > 0 && Plan(file, files, n, order, at) && Plan(file, files, n, order', at')
    ensures order == order' && at == at'
  {
    if file.Readable? {
      VisitKeyInjective(file.weights, order);
      SortedUnique(order, order', (f, g) => VisitedBefore(file.weights, f, g));
      GreedyUnique(Ws(file.weights, order), at, at', n);
    }
  }

  lemma PlanPlaces(file: WeightsFile, files: seq<string>, n: nat, order: seq<string>, at: seq<nat>)
    requires n > 0 && Plan(file, files, n, order, at)
    ensures |at| == |order| && Placed(at, n) && multiset(order) == multiset(files)
  {
    if file.Readable? {
      GreedyIsListScheduled(Ws(file.weights, order), at, n);
      SchedulePlaces(Ws(file.weights, order), at, n);
    }
  }

  /** EXACT PARTITION. The n shards of n independent calls together hold every file exactly as
      often as it was given, whatever the weights file says. */
  lemma ShardsPartition(file: WeightsFile, files: seq<string>, n: nat, shards: seq<seq<string>>)
    requires n > 0 && |shards| == n
    requires forall i: nat | i < n :: IsShard(file, files, n, i, shards[i])
    ensures Union(shards) == multiset(files)
  {
    assert IsShard(file, files, n, 0, shards[0]);
    var order, at :| Plan(file, files, n, order, at) && |at| == |order|
      && multiset(shards[0]) == multiset(PartOf(order, at, 0));
    PlanPlaces(file, files, n, order, at);
    forall i: nat | i < n ensures multiset(shards[i]) == multiset(PartOf(order, at, i)) {
      assert IsShard(file, files, n, i, shards[i]);
      var order', at' :| Plan(file, files, n, order', at') && |at'| == |order'|
        && multiset(shards[i]) == multiset(PartOf(order', at', i));
      PlanUnique(file, files, n, order, at, order', at');
    }
    forall f ensures Union(shards)[f] == multiset(files)[f] {
      UnionOfParts(shards, order, at, f);
      PartsConserve(order, at, n, f);
    }
  }

  // ---------------------------------------------------------------- balance

  ghost function WeightOf(weights: map<string, Weight>, files: seq<string>): real {
    if files == [] then 0.0 else WeightOf(weights, files[..|files| - 1]) + W(weights, files[|files| - 1])
  }

  lemma {:induction false} WeightOfConcat(weights: map<string, Weight>, a: seq<string>, b: seq<string>)
    ensures WeightOf(weights, a + b) == WeightOf(weights, a) + WeightOf(weights, b)
  {
    if b == [] {
      assert a + b == a;
    } else {
      assert (a + b)[..|a + b| - 1] == a + b[..|b| - 1];
      WeightOfConcat(weights, a, b[..|b| - 1]);
    }
  }

  ghost function Without(files: seq<string>, f: string): (rest: seq<string>)
    requires f in files
    ensures multiset(files) == multiset(rest) + multiset{f}
  {
    var i :| 0 <= i < |files| && files[i] == f;
    assert files == files[..i] + [f] + files[i + 1..];
    files[..i] + files[i + 1..]
  }

  lemma WeightWithout(weights: map<string, Weight>, files: seq<string>, f: string)
    requires f in files
    ensures WeightOf(weights, files) == WeightOf(weights, Without(files, f)) + W(weights, f)
  {
    var rest := Without(files, f);
    var i :| 0 <= i < |files| && files[i] == f && rest == files[..i] + files[i + 1..];
    assert files == files[..i] + [f] + files[i + 1..];
    WeightOfConcat(weights, files[..i] + [f], files[i + 1..]);
    WeightOfConcat(weights, files[..i], [f]);
    WeightOfConcat(weights, files[..i], files[i + 1..]);
    assert [f][..0] == [] && WeightOf(weights, [f]) == W(weights, f);
  }

  lemma {:induction false} WeightPermutes(weights: map<string, Weight>, a: seq<string>, b: seq<string>)
    requires multiset(a) == multiset(b)
    ensures WeightOf(weights, a) == WeightOf(weights, b)
    decreases |a|
  {
    if a == [] {
      assert |multiset(b)| == 0;
    } else {
      var k := |a| - 1;
      LastApart(a);
      assert a[k] in multiset(b);
      WeightWithout(weights, b, a[k]);
      Cancel(multiset(a[..k]), multiset(Without(b, a[k])), a[k]);
      WeightPermutes(weights, a[..k], Without(b, a[k]));
    }
  }

  lemma {:induction false} PartWeight(weights: map<string, Weight>, files: seq<string>, at: seq<nat>, m: nat)
    requires |files| == |at|
    ensures WeightOf(weights, PartOf(files, at, m)) == LoadOf(Ws(weights, files), at, m)
  {
    if files != [] {
      var k := |files| - 1;
      PartWeight(weights, files[..k], at[..k], m);
      assert Ws(weights, files)[..k] == Ws(weights, files[..k]);
      WeightOfConcat(weights, PartOf(files[..k], at[..k], m), [files[k]]);
      assert PartOf(files[..k], at[..k], m) + [] == PartOf(files[..k], at[..k], m);
      assert [files[k]][..0] == [] && WeightOf(weights, [files[k]]) == W(weights, files[k]);
    }
  }

  lemma {:induction false} UnionHolds(parts: seq<seq<string>>, f: string) returns (m: nat)
    requires f in Union(parts)
    ensures m < |parts| && f in parts[m]
  {
    var k := |parts| - 1;
    if f in parts[k] {
      m := k;
    } else {
      m := UnionHolds(parts[..k], f);
    }
  }

  lemma {:induction false} UnionReplace(parts: seq<seq<string>>, m: nat, part: seq<string>, f: string)
    requires m < |parts| && multiset(parts[m]) == multiset(part) + multiset{f}
    ensures Union(parts) == Union(parts[m := part]) + multiset{f}
  {
    var k := |parts| - 1;
    if m < k {
      UnionReplace(parts[..k], m, part, f);
      assert parts[m := part][..k] == parts[..k][m := part];
    } else {
      assert parts[m := part][..k] == parts[..k];
    }
  }

  /** Any partition of the files is a placement of them, with the same loads. */
  lemma {:induction false} PartitionIsPlacement(weights: map<string, Weight>, files: seq<string>, parts: seq<seq<string>>)
      returns (at: seq<nat>)
    requires Union(parts) == multiset(files)
    ensures |at| == |files| && Placed(at, |parts|)
    ensures forall m: nat | m < |parts| :: LoadOf(Ws(weights, files), at, m) == WeightOf(weights, parts[m])
  {
    if files == [] {
      at := [];
      forall m: nat | m < |parts| ensures parts[m] == [] {
        if parts[m] != [] {
          UnionContains(parts, m, parts[m][0]);
        }
      }
    } else {
      var k := |files| - 1;
      var f := files[k];
      assert f in multiset(files);
      var m := UnionHolds(parts, f);
      var parts' := parts[m := Without(parts[m], f)];
      UnionReplace(parts, m, Without(parts[m], f), f);
      LastApart(files);
      Cancel(Union(parts'), multiset(files[..k]), f);
      hide Union;
      var at' := PartitionIsPlacement(weights, files[..k], parts');
      WeightWithout(weights, parts[m], f);
      at := at' + [m];
      hide WeightOf, W, Without;
      forall l: nat | l < |parts| ensures LoadOf(Ws(weights, files), at, l) == WeightOf(weights, parts[l]) {
        OneMorePlaced(weights, files, at', m, l);
      }
    }
  }

  lemma OneMorePlaced(weights: map<string, Weight>, files: seq<string>, at: seq<nat>, m: nat, l: nat)
    requires |files| == |at| + 1
    ensures var k := |at|;
      LoadOf(Ws(weights, files), at + [m], l)
      == LoadOf(Ws(weights, files[..k]), at, l) + if m == l then W(weights, files[k]) else 0.0
  {
    assert (at + [m])[..|at|] == at;
    assert Ws(weights, files)[..|at|] == Ws(weights, files[..|at|]);
  }

  lemma {:induction false} UnionContains(parts: seq<seq<string>>, m: nat, f: string)
    requires m < |parts| && f in parts[m]
    ensures f in Union(parts)
  {
    if m < |parts| - 1 {
      UnionContains(parts[..|parts| - 1], m, f);
    }
  }

  lemma {:induction false} WeightNonNegative(weights: map<string, Weight>, files: seq<string>)
    requires forall f | f in files :: W(weights, f) >= 0.0
    ensures WeightOf(weights, files) >= 0.0
  {
    if files != [] {
      WeightNonNegative(weights, files[..|files| - 1]);
    }
  }

  /** BALANCE. With non-negative weights, no shard weighs more than 4/3 - 1/(3n) times the heaviest
      part of any other division of the files into n parts. */
  lemma ShardsBalanced(weights: map<string, Weight>, files: seq<string>, n: nat, i: nat, shard: seq<string>,
                       parts: seq<seq<string>>, t: real)
    requires i < n == |parts| && IsShard(Readable(weights), files, n, i, shard)
    requires forall f | f in files :: W(weights, f) >= 0.0
    requires Union(parts) == multiset(files) && forall m: nat | m < n :: WeightOf(weights, parts[m]) <= t
    ensures LptRatio(n, WeightOf(weights, shard), t)
  {
    var file := Readable(weights);
    var order, at :| Plan(file, files, n, order, at) && |at| == |order|
      && multiset(shard) == multiset(PartOf(order, at, i));
    var ws := Ws(weights, order);
    GreedyIsListScheduled(ws, at, n);
    var other := PartitionIsPlacement(weights, order, parts);
    forall j | 0 <= j < |ws| ensures ws[j] >= 0.0 {
      assert order[j] in multiset(files);
    }
    LoadNonNegative(ws, other, 0);
    assert LoadOf(ws, other, 0) <= t;
    LptBound(ws, at, n, other, t, i);
    PartWeight(weights, order, at, i);
    WeightPermutes(weights, shard, PartOf(order, at, i));
  }
}
