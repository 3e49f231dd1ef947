/** List scheduling on identical machines: the laws behind the shard balancer of
    `run_regression.py`. Job j weighs ws[j] and is placed on machine at[j]. */
module Scheduling {

  function LoadOf(ws: seq<real>, at: seq<nat>, m: nat): real
    requires |ws| == |at|
  {
    if ws == [] then 0.0
    else
      var k := |ws| - 1;
      LoadOf(ws[..k], at[..k], m) + if at[k] == m then ws[k] else 0.0
  }

  function Total(ws: seq<real>): real {
    if ws == [] then 0.0 else Total(ws[..|ws| - 1]) + ws[|ws| - 1]
  }

  /** The loads of machines 0 .. n - 1, summed. */
  ghost function LoadSum(ws: seq<real>, at: seq<nat>, n: nat): real
    requires |ws| == |at|
  {
    if n == 0 then 0.0 else LoadSum(ws, at, n - 1) + LoadOf(ws, at, n - 1)
  }

  ghost function Times(n: nat, x: real): real {
    n as real * x
  }

  /** load <= (2 - 1/n) t, without the division. */
  ghost predicate ListRatio(n: nat, load: real, t: real) {
    n as real * load <= (2.0 * n as real - 1.0) * t
  }

  /** load <= (4/3 - 1/(3n)) t, without the division. */
  ghost predicate LptRatio(n: nat, load: real, t: real) {
    3.0 * n as real * load <= (4.0 * n as real - 1.0) * t
  }

  ghost predicate Placed(at: seq<nat>, n: nat) {
    forall j | 0 <= j < |at| :: at[j] < n
  }

  ghost predicate NonNegative(ws: seq<real>) {
    forall j | 0 <= j < |ws| :: ws[j] >= 0.0
  }

  ghost predicate Decreasing(ws: seq<real>) {
    forall i, j | 0 <= i < j < |ws| :: ws[i] >= ws[j]
  }

  /** No machine carries more than `t`. */
  ghost predicate Within(ws: seq<real>, at: seq<nat>, n: nat, t: real)
    requires |ws| == |at|
  {
    forall m: nat | m < n :: LoadOf(ws, at, m) <= t
  }

  /** Each job went to a machine that was lightest at the time. */
  ghost predicate ListScheduled(ws: seq<real>, at: seq<nat>, n: nat)
    requires |ws| == |at|
  {
    ws == [] ||
      var k := |ws| - 1;
      && at[k] < n
      && (forall m: nat | m < n :: LoadOf(ws[..k], at[..k], at[k]) <= LoadOf(ws[..k], at[..k], m))
      && ListScheduled(ws[..k], at[..k], n)
  }

  // ---------------------------------------------------------------- sums

  lemma {:induction false} LoadSumEmpty(n: nat)
    ensures LoadSum([], [], n) == 0.0
  {
    if n > 0 {
      LoadSumEmpty(n - 1);
    }
  }

  lemma {:induction false} LoadSumStep(ws: seq<real>, at: seq<nat>, n: nat)
    requires |ws| == |at| > 0
    ensures var k := |ws| - 1;
      LoadSum(ws, at, n) == LoadSum(ws[..k], at[..k], n) + if at[k] < n then ws[k] else 0.0
  {
    if n > 0 {
      LoadSumStep(ws, at, n - 1);
    }
  }

  /** Whatever the placement, the loads add up to the total weight. */
  lemma {:induction false} LoadsConserve(ws: seq<real>, at: seq<nat>, n: nat)
    requires |ws| == |at| && Placed(at, n)
    ensures LoadSum(ws, at, n) == Total(ws)
  {
    if ws == [] {
      LoadSumEmpty(n);
    } else {
      LoadSumStep(ws, at, n);
      LoadsConserve(ws[..|ws| - 1], at[..|ws| - 1], n);
    }
  }

  lemma {:induction false} LoadSumAtLeast(ws: seq<real>, at: seq<nat>, n: nat, low: real)
    requires |ws| == |at| && forall m: nat | m < n :: low <= LoadOf(ws, at, m)
    ensures Times(n, low) <= LoadSum(ws, at, n)
  {
    if n > 0 {
      LoadSumAtLeast(ws, at, n - 1, low);
    }
  }

  lemma {:induction false} LoadSumAtMost(ws: seq<real>, at: seq<nat>, n: nat, high: real)
    requires |ws| == |at| && Within(ws, at, n, high)
    ensures LoadSum(ws, at, n) <= Times(n, high)
  {
    if n > 0 {
      LoadSumAtMost(ws, at, n - 1, high);
    }
  }

  // ---------------------------------------------------------------- loads

  lemma {:induction false} LoadNonNegative(ws: seq<real>, at: seq<nat>, m: nat)
    requires |ws| == |at| && NonNegative(ws)
    ensures LoadOf(ws, at, m) >= 0.0
  {
    if ws != [] {
      LoadNonNegative(ws[..|ws| - 1], at[..|ws| - 1], m);
    }
  }

  lemma {:induction false} LoadAtLeastJob(ws: seq<real>, at: seq<nat>, j: nat)
    requires |ws| == |at| && NonNegative(ws) && j < |ws|
    ensures ws[j] <= LoadOf(ws, at, at[j])
  {
    var k := |ws| - 1;
    if j < k {
      LoadAtLeastJob(ws[..k], at[..k], j);
    } else {
      LoadNonNegative(ws[..k], at[..k], at[j]);
    }
  }

  lemma {:induction false} LoadAtLeastTwo(ws: seq<real>, at: seq<nat>, i: nat, j: nat)
    requires |ws| == |at| && NonNegative(ws) && i < j < |ws|
    ensures at[i] == at[j] ==> ws[i] + ws[j] <= LoadOf(ws, at, at[j])
  {
    var k := |ws| - 1;
    if j < k {
      LoadAtLeastTwo(ws[..k], at[..k], i, j);
    } else {
      LoadAtLeastJob(ws[..k], at[..k], i);
    }
  }

  ghost function Count(at: seq<nat>, m: nat): nat {
    if at == [] then 0 else Count(at[..|at| - 1], m) + if at[|at| - 1] == m then 1 else 0
  }

  /** Jobs of equal weight on a machine. */
  lemma {:induction false} UniformLoad(ws: seq<real>, at: seq<nat>, m: nat, v: real)
    requires |ws| == |at| && forall j | 0 <= j < |ws| && at[j] == m :: ws[j] == v
    ensures LoadOf(ws, at, m) == Count(at, m) as real * v
  {
    if ws != [] {
      UniformLoad(ws[..|ws| - 1], at[..|ws| - 1], m, v);
    }
  }

  lemma {:induction false} EmptyMachine(ws: seq<real>, at: seq<nat>, m: nat)
    requires |ws| == |at|
    ensures Count(at, m) == 0 ==> LoadOf(ws, at, m) == 0.0
  {
    if ws != [] {
      EmptyMachine(ws[..|ws| - 1], at[..|ws| - 1], m);
    }
  }

  /** Three jobs that each outweigh a third of `t` outweigh `t`. */
  lemma {:induction false} ThreeHeavyJobs(ws: seq<real>, at: seq<nat>, m: nat, t: real)
    requires |ws| == |at| && t >= 0.0 && forall j | 0 <= j < |ws| :: 3.0 * ws[j] > t
    ensures Count(at, m) > 0 ==> 3.0 * LoadOf(ws, at, m) > t
    ensures Count(at, m) > 1 ==> 3.0 * LoadOf(ws, at, m) > 2.0 * t
    ensures Count(at, m) > 2 ==> LoadOf(ws, at, m) > t
  {
    if ws != [] {
      ThreeHeavyJobs(ws[..|ws| - 1], at[..|ws| - 1], m, t);
      EmptyMachine(ws[..|ws| - 1], at[..|ws| - 1], m);
    }
  }

  lemma {:induction false} LoneJob(ws: seq<real>, at: seq<nat>, j: nat)
    requires |ws| == |at| && j < |ws| && forall i | 0 <= i < |ws| && i != j :: at[i] != at[j]
    ensures LoadOf(ws, at, at[j]) == ws[j]
  {
    var k := |ws| - 1;
    if j < k {
      LoneJob(ws[..k], at[..k], j);
    } else {
      NobodyThere(at[..k], at[j]);
      EmptyMachine(ws[..k], at[..k], at[j]);
    }
  }

  lemma {:induction false} NobodyThere(at: seq<nat>, m: nat)
    requires forall i | 0 <= i < |at| :: at[i] != m
    ensures Count(at, m) == 0
  {
    if at != [] {
      NobodyThere(at[..|at| - 1], m);
    }
  }

  lemma {:induction false} CountOneIsLone(at: seq<nat>, j: nat)
    requires j < |at| && Count(at, at[j]) == 1
    ensures forall i | 0 <= i < |at| && i != j :: at[i] != at[j]
  {
    var k := |at| - 1;
    if j < k {
      CountPositive(at[..k], j);
      CountOneIsLone(at[..k], j);
    } else {
      forall i | 0 <= i < k ensures at[i] != at[j] {
        if at[i] == at[j] {
          CountPositive(at[..k], i);
        }
      }
    }
  }

  lemma {:induction false} CountPositive(at: seq<nat>, j: nat)
    requires j < |at|
    ensures Count(at, at[j]) > 0
  {
    if j < |at| - 1 {
      CountPositive(at[..|at| - 1], j);
    }
  }

  // ---------------------------------------------------------------- prefixes

  lemma {:induction false} SchedulePlaces(ws: seq<real>, at: seq<nat>, n: nat)
    requires |ws| == |at| && ListScheduled(ws, at, n)
    ensures Placed(at, n)
  {
    if ws != [] {
      SchedulePlaces(ws[..|ws| - 1], at[..|ws| - 1], n);
    }
  }

  lemma PrefixWithin(ws: seq<real>, at: seq<nat>, n: nat, t: real)
    requires |ws| == |at| > 0 && NonNegative(ws) && Within(ws, at, n, t)
    ensures Within(ws[..|ws| - 1], at[..|ws| - 1], n, t)
  {
    var ws', at' := ws[..|ws| - 1], at[..|ws| - 1];
    forall m: nat | m < n ensures LoadOf(ws', at', m) <= t {
      assert LoadOf(ws, at, m) <= t;
    }
  }

  // ---------------------------------------------------------------- bounds

  /** The lightest machine before the last job, n times over, leaves room for that job. */
  lemma LightestHasRoom(ws: seq<real>, at: seq<nat>, n: nat, other: seq<nat>, t: real)
    requires |ws| == |at| == |other| > 0 && n > 0
    requires ListScheduled(ws, at, n) && Placed(other, n) && Within(ws, other, n, t)
    ensures var k := |ws| - 1;
      Times(n, LoadOf(ws[..k], at[..k], at[k])) + ws[k] <= Times(n, t)
  {
    var k := |ws| - 1;
    var ws', at' := ws[..k], at[..k];
    assert Total(ws) == Total(ws') + ws[k];
    SchedulePlaces(ws', at', n);
    LoadSumAtLeast(ws', at', n, LoadOf(ws', at', at[k]));
    hide LoadOf, LoadSum, Total, ListScheduled, Times;
    LoadsConserve(ws', at', n);
    LoadsConserve(ws, other, n);
    LoadSumAtMost(ws, other, n, t);
  }

  /** List scheduling in ANY visiting order: at most 2 - 1/n times any other placement. */
  lemma {:induction false} ListSchedulingBound(ws: seq<real>, at: seq<nat>, n: nat, other: seq<nat>, t: real, m: nat)
    requires |ws| == |at| == |other| && n > 0 && m < n && t >= 0.0
    requires NonNegative(ws) && ListScheduled(ws, at, n) && Placed(other, n) && Within(ws, other, n, t)
    ensures ListRatio(n, LoadOf(ws, at, m), t)
  {
    hide ListRatio, Times;
    NoLoadRatio(n, t);
    if ws != [] {
      var k := |ws| - 1;
      var ws', at' := ws[..k], at[..k];
      if at[k] == m {
        assert LoadOf(ws, at, m) == LoadOf(ws', at', m) + ws[k];
        LightestHasRoom(ws, at, n, other, t);
        LoadAtLeastJob(ws, other, k);
        AnyJobRatio(n, LoadOf(ws', at', m), ws[k], t);
      } else {
        PrefixWithin(ws, other, n, t);
        ListSchedulingBound(ws', at', n, other[..k], t, m);
      }
    }
  }

  lemma MulMonotone(a: real, x: real, y: real)
    requires a >= 0.0 && x <= y
    ensures a * x <= a * y
  {
  }

  lemma NoLoadRatio(n: nat, t: real)
    requires n > 0 && t >= 0.0
    ensures ListRatio(n, 0.0, t) && LptRatio(n, 0.0, t)
  {
    MulMonotone(2.0 * n as real - 1.0, 0.0, t);
    MulMonotone(4.0 * n as real - 1.0, 0.0, t);
  }

  lemma AnyJobRatio(n: nat, load: real, p: real, t: real)
    requires n > 0 && Times(n, load) + p <= Times(n, t) && p <= t
    ensures ListRatio(n, load + p, t)
  {
    var r := n as real;
    MulMonotone(r - 1.0, p, t);
    assert r * (load + p) == (r * load + p) + (r - 1.0) * p;
  }

  lemma SmallJobRatio(n: nat, load: real, p: real, t: real)
    requires n > 0 && Times(n, load) + p <= Times(n, t) && 3.0 * p <= t
    ensures LptRatio(n, load + p, t)
  {
    var r := n as real;
    MulMonotone(r - 1.0, 3.0 * p, t);
    assert 3.0 * r * (load + p) == 3.0 * (r * load + p) + (r - 1.0) * (3.0 * p);
  }

  lemma OptimalRatio(n: nat, load: real, t: real)
    requires n > 0 && load <= t && t >= 0.0
    ensures LptRatio(n, load, t)
  {
    var r := n as real;
    MulMonotone(3.0 * r, load, t);
    MulMonotone(r - 1.0, 0.0, t);
    assert (4.0 * r - 1.0) * t == 3.0 * r * t + (r - 1.0) * t;
  }

  // ---------------------------------------------------------------- jobs above a third of t

  /** Every machine is within `t`, and has no room for a job of weight `p`. */
  ghost predicate Full(ws: seq<real>, at: seq<nat>, n: nat, p: real, t: real)
    requires |ws| == |at|
  {
    forall m: nat | m < n :: t - p < LoadOf(ws, at, m) <= t
  }

  /** A job alone on its machine counts 2 units, every other job 1. */
  ghost function Units(at: seq<nat>): seq<real> {
    seq(|at|, j requires 0 <= j < |at| => if Count(at, at[j]) == 1 then 2.0 else 1.0)
  }

  /** A full machine holds one job or two: exactly 2 units. */
  lemma FullMachineUnits(ws: seq<real>, at: seq<nat>, n: nat, p: real, t: real, m: nat)
    requires |ws| == |at| && m < n && 0.0 <= p <= t && Full(ws, at, n, p, t)
    requires forall j | 0 <= j < |ws| :: 3.0 * ws[j] > t
    ensures LoadOf(Units(at), at, m) == 2.0
  {
    ThreeHeavyJobs(ws, at, m, t);
    EmptyMachine(ws, at, m);
    UniformLoad(Units(at), at, m, if Count(at, m) == 1 then 2.0 else 1.0);
  }

  /** The same jobs and one more, of weight p = ws[|at|], placed within `t`: where every job that
      was alone exceeds `t` together with p, no machine holds more than 2 units. */
  lemma AtMostTwoUnits(ws: seq<real>, at: seq<nat>, other: seq<nat>, t: real, m: nat)
    requires |ws| == |at| + 1 == |other| && t >= 0.0 && Decreasing(ws)
    requires forall j | 0 <= j < |ws| :: 3.0 * ws[j] > t
    requires forall j | 0 <= j < |at| && Count(at, at[j]) == 1 :: ws[j] + ws[|at|] > t
    requires LoadOf(ws, other, m) <= t
    ensures LoadOf(Units(at) + [1.0], other, m) <= 2.0
  {
    var units := Units(at) + [1.0];
    if j :| 0 <= j < |at| && other[j] == m && Count(at, at[j]) == 1 {
      forall i | 0 <= i < |ws| && i != j ensures other[i] != other[j] {
        LoadAtLeastTwo(ws, other, if i < j then i else j, if i < j then j else i);
      }
      LoneJob(units, other, j);
    } else {
      UniformLoad(units, other, m, 1.0);
      ThreeHeavyJobs(ws, other, m, t);
    }
  }

  /** Double counting: full machines cannot hold all but one of the jobs of a placement within
      `t`. They hold 2 n units and the last job needs one more; the placement has 2 n. */
  lemma NotFull(ws: seq<real>, at: seq<nat>, n: nat, other: seq<nat>, t: real)
    requires |ws| == |at| + 1 == |other| && t >= 0.0 && Decreasing(ws)
    requires forall j | 0 <= j < |ws| :: 3.0 * ws[j] > t
    requires Placed(at, n) && Placed(other, n) && Within(ws, other, n, t)
    ensures !Full(ws[..|at|], at, n, ws[|at|], t)
  {
    var p, ws' := ws[|at|], ws[..|at|];
    if Full(ws', at, n, p, t) {
      LoadAtLeastJob(ws, other, |at|);
      UnitsHeld(ws', at, n, p, t);
      forall j | 0 <= j < |at| && Count(at, at[j]) == 1 ensures ws[j] + p > t {
        CountOneIsLone(at, j);
        LoneJob(ws', at, j);
      }
      UnitsAllowed(ws, at, n, other, t);
      assert false;
    }
  }

  lemma UnitsHeld(ws: seq<real>, at: seq<nat>, n: nat, p: real, t: real)
    requires |ws| == |at| && Placed(at, n) && 0.0 <= p <= t && Full(ws, at, n, p, t)
    requires forall j | 0 <= j < |ws| :: 3.0 * ws[j] > t
    ensures 2.0 * n as real <= Total(Units(at))
  {
    forall m: nat | m < n ensures 2.0 <= LoadOf(Units(at), at, m) {
      FullMachineUnits(ws, at, n, p, t, m);
    }
    LoadSumAtLeast(Units(at), at, n, 2.0);
    LoadsConserve(Units(at), at, n);
  }

  lemma UnitsAllowed(ws: seq<real>, at: seq<nat>, n: nat, other: seq<nat>, t: real)
    requires |ws| == |at| + 1 == |other| && t >= 0.0 && Decreasing(ws)
    requires forall j | 0 <= j < |ws| :: 3.0 * ws[j] > t
    requires forall j | 0 <= j < |at| && Count(at, at[j]) == 1 :: ws[j] + ws[|at|] > t
    requires Placed(other, n) && Within(ws, other, n, t)
    ensures Total(Units(at)) + 1.0 <= 2.0 * n as real
  {
    var units := Units(at) + [1.0];
    forall m: nat | m < n ensures LoadOf(units, other, m) <= 2.0 {
      AtMostTwoUnits(ws, at, other, t, m);
    }
    LoadSumAtMost(units, other, n, 2.0);
    LoadsConserve(units, other, n);
    assert units[..|at|] == Units(at);
  }

  /** When every job outweighs a third of `t`, visiting them heaviest first is optimal. */
  lemma {:induction false} BigJobsFit(ws: seq<real>, at: seq<nat>, n: nat, other: seq<nat>, t: real)
    requires |ws| == |at| == |other| && n > 0 && t >= 0.0 && Decreasing(ws)
    requires forall j | 0 <= j < |ws| :: 3.0 * ws[j] > t
    requires ListScheduled(ws, at, n) && Placed(other, n) && Within(ws, other, n, t)
    ensures Within(ws, at, n, t)
  {
    if ws == [] {
      LoadsOfNothing(n);
    } else {
      var k := |ws| - 1;
      PrefixWithin(ws, other, n, t);
      BigJobsFit(ws[..k], at[..k], n, other[..k], t);
      SchedulePlaces(ws[..k], at[..k], n);
      NotFull(ws, at[..k], n, other, t);
      assert LoadOf(ws[..k], at[..k], at[k]) + ws[k] <= t;
    }
  }

  lemma LoadsOfNothing(n: nat)
    ensures forall m: nat | m < n :: LoadOf([], [], m) == 0.0
  {
  }

  /** LONGEST PROCESSING TIME FIRST: at most 4/3 - 1/(3n) times any other placement. */
  lemma {:induction false} LptBound(ws: seq<real>, at: seq<nat>, n: nat, other: seq<nat>, t: real, m: nat)
    requires |ws| == |at| == |other| && n > 0 && m < n && t >= 0.0
    requires NonNegative(ws) && Decreasing(ws)
    requires ListScheduled(ws, at, n) && Placed(other, n) && Within(ws, other, n, t)
    ensures LptRatio(n, LoadOf(ws, at, m), t)
  {
    hide LptRatio, Times;
    NoLoadRatio(n, t);
    if ws != [] {
      var k := |ws| - 1;
      var ws', at' := ws[..k], at[..k];
      if at[k] != m {
        PrefixWithin(ws, other, n, t);
        LptBound(ws', at', n, other[..k], t, m);
      } else if 3.0 * ws[k] > t {
        BigJobsFit(ws, at, n, other, t);
        OptimalRatio(n, LoadOf(ws, at, m), t);
      } else {
        assert LoadOf(ws, at, m) == LoadOf(ws', at', m) + ws[k];
        LightestHasRoom(ws, at, n, other, t);
        SmallJobRatio(n, LoadOf(ws', at', m), ws[k], t);
      }
    }
  }
}
