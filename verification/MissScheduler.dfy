/** The miss-typed scheduler of `buildloop/loop.py` with its refusal memory: scoring over a snapshot,
    the event log, one iteration, and what holds over any number of iterations. */
module MissScheduler {
  import opened Order
  import opened Wrappers

  const MATH_MAX_ATTEMPTS: nat := 2
  const UNCOVERED_PENALTY: real := 50.0
  const READING_CHAIN_COST: real := 2.0
  const TOLL_RATE: real := 0.05
  const HORIZON_H: real := 1000.0

  /** What the evidence hash of a toll is taken of. */
  datatype Evidence = Evidence(lift: nat, surface: string)

  datatype Move =
    | Coverage(key: string, score: real)
    | Request(key: string, score: real)
    | Recurrence(key: string, score: real)
    | Toll(key: string, score: real, evidence: Evidence)
    | Math(key: string, score: real, demandId: string)

  datatype Event =
    | ConversionSuppressed(evidence: Evidence)
    | MathRefused(demandId: string)
    | Miss(key: string, suppressed: bool)
    | Decision

  datatype Row = Row(kind: string, status: string, origin: Option<string>, demandId: string, size: nat,
                     incumbent: string, payloadRef: Option<string>)

  /** The frozen view of an iteration; `others` are its coverage, request and recurrence moves. */
  datatype Snapshot = Snapshot(
    demand: seq<Row>, readings: set<string>, calls: map<string, real>, lifts: map<string, nat>, others: seq<Move>)

  // ---------------------------------------------------------------- the moves of a snapshot

  function Least(a: real, b: real): real {
    if a <= b then a else b
  }

  function TollStock(calls: real): real {
    Least(TOLL_RATE * Least(calls, HORIZON_H), UNCOVERED_PENALTY)
  }

  predicate IsToll(r: Row) {
    r.kind == "caged-incumbent" && r.status == "open"
  }

  function TollMove(snap: Snapshot, r: Row): Move {
    var calls := if r.incumbent in snap.calls then snap.calls[r.incumbent] else 0.0;
    var lift := if r.incumbent in snap.lifts then snap.lifts[r.incumbent] else 0;
    var surface := if r.payloadRef.Some? && r.payloadRef.value != "" then r.payloadRef.value else r.incumbent;
    Toll("toll:" + r.incumbent, TollStock(calls) - (r.size as real / 256.0 + 1.0), Evidence(lift, surface))
  }

  /** Dreams never bill, and a served row is left alone. */
  predicate IsMath(snap: Snapshot, r: Row) {
    r.kind == "math-source" && r.status != "retired" && r.origin == Some("exogenous") && r.demandId !in snap.readings
  }

  function MathMove(r: Row): Move {
    Math("math:" + r.demandId, UNCOVERED_PENALTY - (READING_CHAIN_COST + r.size as real / 8.0), r.demandId)
  }

  /** A math row is worth picking exactly below 384 bytes, and a toll exactly if the calls of the horizon
      outweigh the estimated replacement; no toll is worth more than an uncovered row. */
  lemma WorthPicking(snap: Snapshot, r: Row, calls: real)
    ensures MathMove(r).score > 0.0 <==> r.size < 384
    ensures TollStock(calls) <= UNCOVERED_PENALTY && (calls >= HORIZON_H ==> TollStock(calls) == UNCOVERED_PENALTY)
    ensures r.incumbent in snap.calls && snap.calls[r.incumbent] == calls ==>
      (TollMove(snap, r).score > 0.0 <==> 12.8 * Least(calls, HORIZON_H) > r.size as real + 256.0)
    ensures r.incumbent !in snap.calls ==> TollMove(snap, r).score <= -1.0
  {
  }

  function TollMoves(snap: Snapshot, rows: seq<Row>): seq<Move> {
    if rows == [] then []
    else
      var r := rows[|rows| - 1];
      TollMoves(snap, rows[..|rows| - 1]) + if IsToll(r) then [TollMove(snap, r)] else []
  }

  function MathMoves(snap: Snapshot, rows: seq<Row>): seq<Move> {
    if rows == [] then []
    else
      var r := rows[|rows| - 1];
      MathMoves(snap, rows[..|rows| - 1]) + if IsMath(snap, r) then [MathMove(r)] else []
  }

  function AllMoves(snap: Snapshot): seq<Move> {
    snap.others + TollMoves(snap, snap.demand) + MathMoves(snap, snap.demand)
  }

  method ListTolls(snap: Snapshot) returns (moves: seq<Move>)
    ensures moves == TollMoves(snap, snap.demand)
  {
    moves := [];
    for i := 0 to |snap.demand|
      invariant moves == TollMoves(snap, snap.demand[..i])
    {
      assert snap.demand[..i + 1][..i] == snap.demand[..i];
      if IsToll(snap.demand[i]) {
        moves := moves + [TollMove(snap, snap.demand[i])];
      }
    }
    assert snap.demand[..|snap.demand|] == snap.demand;
  }

  method ListMaths(snap: Snapshot) returns (moves: seq<Move>)
    ensures moves == MathMoves(snap, snap.demand)
  {
    moves := [];
    for i := 0 to |snap.demand|
      invariant moves == MathMoves(snap, snap.demand[..i])
    {
      assert snap.demand[..i + 1][..i] == snap.demand[..i];
      if IsMath(snap, snap.demand[i]) {
        moves := moves + [MathMove(snap.demand[i])];
      }
    }
    assert snap.demand[..|snap.demand|] == snap.demand;
  }

  // ---------------------------------------------------------------- ranking

  function KindOrder(m: Move): nat {
    match m
    case Coverage(_, _) => 0
    case Request(_, _) => 1
    case Recurrence(_, _) => 2
    case Toll(_, _, _) => 3
    case Math(_, _, _) => 4
  }

  /** Moves rank by falling score, then by kind, then by key. */
  predicate RanksBefore(a: Move, b: Move) {
    a.score > b.score
    || (a.score == b.score
        && (KindOrder(a) < KindOrder(b) || (KindOrder(a) == KindOrder(b) && Le(a.key, b.key))))
  }

  lemma RankingIsPreorder()
    ensures TotalPreorder(RanksBefore)
  {
    LeIsPreorder();
    forall a, b, c | RanksBefore(a, b) && RanksBefore(b, c) ensures RanksBefore(a, c) {
      if a.score == b.score == c.score && KindOrder(a) == KindOrder(b) == KindOrder(c) {
        LeTransitive(a.key, b.key, c.key);
      }
    }
    forall a, b ensures RanksBefore(a, b) || RanksBefore(b, a) {
      LeTotal(a.key, b.key);
    }
  }

  function Ranked(snap: Snapshot): (moves: seq<Move>)
    ensures multiset(moves) == multiset(AllMoves(snap)) && Sorted(moves, RanksBefore)
  {
    RankingIsPreorder();
    Sort(AllMoves(snap), RanksBefore)
  }

  // ---------------------------------------------------------------- refusal memory

  /** The `math-refused` events of a demand; events with an empty id are skipped. */
  function Attempts(events: seq<Event>, demandId: string): nat {
    if events == [] || demandId == "" then 0
    else
      Attempts(events[..|events| - 1], demandId)
      + if events[|events| - 1] == MathRefused(demandId) then 1 else 0
  }

  predicate IsSuppressed(events: seq<Event>, m: Move) {
    match m
    case Toll(_, _, evidence) => ConversionSuppressed(evidence) in events
    case Math(_, _, demandId) => Attempts(events, demandId) >= MATH_MAX_ATTEMPTS
    case _ => false
  }

  predicate Eligible(events: seq<Event>, m: Move) {
    m.score > 0.0 && !IsSuppressed(events, m)
  }

  function FirstEligible(events: seq<Event>, moves: seq<Move>): Option<Move> {
    if moves == [] then None
    else if Eligible(events, moves[0]) then Some(moves[0])
    else FirstEligible(events, moves[1..])
  }

  ghost predicate BestOf(events: seq<Event>, moves: seq<Move>, best: Move) {
    Eligible(events, best) && forall m | m in moves && Eligible(events, m) :: m == best || RanksBefore(best, m)
  }

  lemma {:induction false} PickIsBest(events: seq<Event>, moves: seq<Move>)
    requires Sorted(moves, RanksBefore)
    ensures var picked := FirstEligible(events, moves);
      && (picked.None? <==> forall m | m in moves :: !Eligible(events, m))
      && (picked.Some? ==> picked.value in moves && BestOf(events, moves, picked.value))
  {
    if moves != [] {
      assert moves == [moves[0]] + moves[1..];
      if !Eligible(events, moves[0]) {
        PickIsBest(events, moves[1..]);
      } else {
        forall m | m in moves && m != moves[0] ensures RanksBefore(moves[0], m) {
          var i :| 0 <= i < |moves| && moves[i] == m;
          assert i != 0;
        }
      }
    }
  }

  function MissOf(events: seq<Event>, m: Move): Event {
    Miss(m.key, IsSuppressed(events, m))
  }

  function MissesOf(events: seq<Event>, moves: seq<Move>): seq<Event> {
    if moves == [] then []
    else MissesOf(events, moves[..|moves| - 1]) + [MissOf(events, moves[|moves| - 1])]
  }

  /** What a refused dispatch leaves in the log. */
  function RefusalOf(m: Move): seq<Event> {
    match m
    case Toll(_, _, evidence) => [ConversionSuppressed(evidence)]
    case Math(_, _, demandId) => [MathRefused(demandId)]
    case _ => []
  }

  /** One iteration: a snapshot, and whether the executors refuse a move. */
  datatype Input = Input(snap: Snapshot, refuses: Move -> bool)

  function Picked(events: seq<Event>, input: Input): Option<Move> {
    FirstEligible(events, Ranked(input.snap))
  }

  predicate RefusedNow(events: seq<Event>, input: Input) {
    var picked := Picked(events, input);
    picked.Some? && (picked.value.Toll? || picked.value.Math?) && input.refuses(picked.value)
  }

  predicate RefusesMath(events: seq<Event>, input: Input, demandId: string) {
    RefusedNow(events, input) && Picked(events, input).value.Math? && Picked(events, input).value.demandId == demandId
  }

  predicate RefusesToll(events: seq<Event>, input: Input, evidence: Evidence) {
    RefusedNow(events, input) && Picked(events, input).value.Toll? && Picked(events, input).value.evidence == evidence
  }

  function Iterated(events: seq<Event>, input: Input): seq<Event> {
    events + MissesOf(events, Ranked(input.snap))
    + (if RefusedNow(events, input) then RefusalOf(Picked(events, input).value) else []) + [Decision]
  }

  class Registry {
    var events: seq<Event>

    constructor ()
      ensures events == []
    {
      events := [];
    }

    /** Mark what the refusal memory suppresses; nothing is dropped. */
    method Mark(moves: seq<Move>) returns (marks: seq<bool>)
      ensures |marks| == |moves| && forall i | 0 <= i < |moves| :: marks[i] == IsSuppressed(events, moves[i])
    {
      hide IsSuppressed;
      marks := [];
      for i := 0 to |moves|
        invariant |marks| == i && forall k | 0 <= k < i :: marks[k] == IsSuppressed(events, moves[k])
      {
        marks := marks + [IsSuppressed(events, moves[i])];
      }
    }

    /** The first move that scores and is not marked. */
    method Pick(moves: seq<Move>, marks: seq<bool>) returns (picked: Option<Move>)
      requires |marks| == |moves| && forall i | 0 <= i < |moves| :: marks[i] == IsSuppressed(events, moves[i])
      ensures picked == FirstEligible(events, moves)
    {
      hide IsSuppressed;
      for i := 0 to |moves|
        invariant FirstEligible(events, moves) == FirstEligible(events, moves[i..])
      {
        assert moves[i..][1..] == moves[i + 1..];
        if moves[i].score > 0.0 && !marks[i] {
          return Some(moves[i]);
        }
      }
      picked := None;
    }

    /** `score_moves`: every move is kept, marked or not, and the best eligible one is picked. */
    method ScoreMoves(snap: Snapshot) returns (moves: seq<Move>, marks: seq<bool>, picked: Option<Move>)
      ensures moves == Ranked(snap) && |marks| == |moves|
      ensures forall i | 0 <= i < |moves| :: marks[i] == IsSuppressed(events, moves[i])
      ensures picked == FirstEligible(events, moves)
    {
      hide IsSuppressed, FirstEligible, RanksBefore, TollMoves, MathMoves, Sort;
      var tolls := ListTolls(snap);
      var maths := ListMaths(snap);
      RankingIsPreorder();
      moves := Sort(snap.others + tolls + maths, RanksBefore);
      marks := Mark(moves);
      picked := Pick(moves, marks);
    }

    /** `_log_miss_records` */
    method LogMisses(moves: seq<Move>, marks: seq<bool>)
      requires |marks| == |moves| && forall i | 0 <= i < |moves| :: marks[i] == IsSuppressed(events, moves[i])
      modifies this
      ensures events == old(events) + MissesOf(old(events), moves)
    {
      hide IsSuppressed;
      for i := 0 to |moves|
        invariant events == old(events) + MissesOf(old(events), moves[..i])
      {
        assert moves[..i + 1][..i] == moves[..i];
        assert MissesOf(old(events), moves[..i + 1]) == MissesOf(old(events), moves[..i]) + [MissOf(old(events), moves[i])];
        events := events + [Miss(moves[i].key, marks[i])];
      }
      assert moves[..|moves|] == moves;
    }

    /** `run_iteration`: log the misses, dispatch the pick, remember a refusal, log the decision. */
    method RunIteration(input: Input) returns (picked: Option<Move>)
      modifies this
      ensures events == Iterated(old(events), input) && picked == Picked(old(events), input)
    {
      hide Ranked, FirstEligible, MissesOf, IsSuppressed;
      var moves, marks;
      moves, marks, picked := ScoreMoves(input.snap);
      LogMisses(moves, marks);
      if picked.Some? {
        var refused := input.refuses(picked.value);
        if picked.value.Toll? && refused {
          events := events + [ConversionSuppressed(picked.value.evidence)];
        }
        if picked.value.Math? && refused {
          events := events + [MathRefused(picked.value.demandId)];
        }
      }
      events := events + [Decision];
    }
  }

  // ---------------------------------------------------------------- over whole runs

  /** The log after a run that met these inputs; what the world does between iterations is in them. */
  function LogAfter(events: seq<Event>, inputs: seq<Input>): seq<Event> {
    if inputs == [] then events
    else Iterated(LogAfter(events, inputs[..|inputs| - 1]), inputs[|inputs| - 1])
  }

  /** How often a math demand was picked and refused. */
  function MathRefusals(events: seq<Event>, inputs: seq<Input>, demandId: string): nat {
    if inputs == [] then 0
    else
      var n := |inputs| - 1;
      MathRefusals(events, inputs[..n], demandId)
      + if RefusesMath(LogAfter(events, inputs[..n]), inputs[n], demandId) then 1 else 0
  }

  /** How often a toll with this evidence was picked and refused. */
  function TollRefusals(events: seq<Event>, inputs: seq<Input>, evidence: Evidence): nat {
    if inputs == [] then 0
    else
      var n := |inputs| - 1;
      TollRefusals(events, inputs[..n], evidence)
      + if RefusesToll(LogAfter(events, inputs[..n]), inputs[n], evidence) then 1 else 0
  }

  /** How many iterations ended in a refusal. */
  function Refusals(events: seq<Event>, inputs: seq<Input>): nat {
    if inputs == [] then 0
    else
      var n := |inputs| - 1;
      Refusals(events, inputs[..n]) + if RefusedNow(LogAfter(events, inputs[..n]), inputs[n]) then 1 else 0
  }

  lemma {:induction false} AttemptsAdd(a: seq<Event>, b: seq<Event>, demandId: string)
    ensures Attempts(a + b, demandId) == Attempts(a, demandId) + Attempts(b, demandId)
  {
    if b == [] {
      assert a + b == a;
    } else {
      assert (a + b)[..|a + b| - 1] == a + b[..|b| - 1];
      AttemptsAdd(a, b[..|b| - 1], demandId);
    }
  }

  lemma {:induction false} MissesCountNothing(events: seq<Event>, moves: seq<Move>)
    ensures forall e | e in MissesOf(events, moves) :: e.Miss?
    ensures forall demandId :: Attempts(MissesOf(events, moves), demandId) == 0
  {
    if moves != [] {
      var n := |moves| - 1;
      MissesCountNothing(events, moves[..n]);
      forall demandId ensures Attempts(MissesOf(events, moves), demandId) == 0 {
        AttemptsAdd(MissesOf(events, moves[..n]), [MissOf(events, moves[n])], demandId);
      }
    }
  }

  lemma AttemptsOfOne(e: Event, demandId: string)
    ensures Attempts([e], demandId) == if demandId != "" && e == MathRefused(demandId) then 1 else 0
    ensures Attempts([], demandId) == 0
  {
    assert [e][..0] == [];
  }

  lemma MathMemory(events: seq<Event>, input: Input, demandId: string)
    requires demandId != ""
    ensures Attempts(Iterated(events, input), demandId)
      == Attempts(events, demandId) + if RefusesMath(events, input, demandId) then 1 else 0
  {
    hide Ranked, Picked, MissesOf, Attempts, IsSuppressed;
    var misses := MissesOf(events, Ranked(input.snap));
    var refusal := if RefusedNow(events, input) then RefusalOf(Picked(events, input).value) else [];
    MissesCountNothing(events, Ranked(input.snap));
    AttemptsAdd(events, misses, demandId);
    AttemptsAdd(events + misses, refusal, demandId);
    AttemptsAdd(events + misses + refusal, [Decision], demandId);
    AttemptsOfOne(Decision, demandId);
    AttemptsOfOne(if refusal == [] then Decision else refusal[0], demandId);
    assert refusal != [] ==> refusal == [refusal[0]];
  }

  lemma TollMemory(events: seq<Event>, input: Input, evidence: Evidence)
    ensures ConversionSuppressed(evidence) in Iterated(events, input)
      <==> ConversionSuppressed(evidence) in events || RefusesToll(events, input, evidence)
  {
    hide Ranked, Picked, MissesOf, Attempts;
    var misses := MissesOf(events, Ranked(input.snap));
    var refusal := if RefusedNow(events, input) then RefusalOf(Picked(events, input).value) else [];
    MissesCountNothing(events, Ranked(input.snap));
    assert Iterated(events, input) == events + misses + refusal + [Decision];
    assert ConversionSuppressed(evidence) !in misses;
  }

  lemma PickIsEligible(events: seq<Event>, input: Input)
    ensures var picked := Picked(events, input);
      picked.Some? ==> picked.value in AllMoves(input.snap) && Eligible(events, picked.value)
    ensures Picked(events, input).None? <==> forall m | m in AllMoves(input.snap) :: !Eligible(events, m)
  {
    hide AllMoves, Eligible;
    var moves := Ranked(input.snap);
    PickIsBest(events, moves);
    assert forall m :: m in moves <==> m in multiset(moves);
    assert forall m :: m in AllMoves(input.snap) <==> m in multiset(AllMoves(input.snap));
  }

  /** NO MATH LIVELOCK. Over any run, whatever the snapshots and the executors do, a math demand with a
      proper id is picked and refused at most `MATH_MAX_ATTEMPTS` times, earlier refusals included. */
  lemma {:induction false} MathRefusedTwiceAtMost(events: seq<Event>, inputs: seq<Input>, demandId: string)
    requires demandId != ""
    ensures Attempts(LogAfter(events, inputs), demandId)
      == Attempts(events, demandId) + MathRefusals(events, inputs, demandId)
    ensures Attempts(events, demandId) <= 2 ==> Attempts(events, demandId) + MathRefusals(events, inputs, demandId) <= 2
  {
    hide Iterated, Picked, Attempts;
    if inputs != [] {
      var n := |inputs| - 1;
      MathRefusedTwiceAtMost(events, inputs[..n], demandId);
      MathMemory(LogAfter(events, inputs[..n]), inputs[n], demandId);
      PickIsEligible(LogAfter(events, inputs[..n]), inputs[n]);
    }
  }

  /** NO TOLL LIVELOCK. Over any run a toll is picked and refused at most once per evidence. */
  lemma {:induction false} TollRefusedOnceAtMost(events: seq<Event>, inputs: seq<Input>, evidence: Evidence)
    ensures ConversionSuppressed(evidence) in LogAfter(events, inputs)
      <==> ConversionSuppressed(evidence) in events || TollRefusals(events, inputs, evidence) > 0
    ensures TollRefusals(events, inputs, evidence) <= if ConversionSuppressed(evidence) in events then 0 else 1
  {
    hide Iterated, Picked;
    if inputs != [] {
      var n := |inputs| - 1;
      TollRefusedOnceAtMost(events, inputs[..n], evidence);
      TollMemory(LogAfter(events, inputs[..n]), inputs[n], evidence);
      PickIsEligible(LogAfter(events, inputs[..n]), inputs[n]);
    }
  }

  // ---------------------------------------------------------------- convergence

  /** How often these moves may still be refused. */
  function Chances(events: seq<Event>, m: Move): nat {
    match m
    case Toll(_, _, evidence) => if ConversionSuppressed(evidence) in events then 0 else 1
    case Math(_, _, demandId) =>
      var attempts := Attempts(events, demandId);
      if attempts >= MATH_MAX_ATTEMPTS then 0 else MATH_MAX_ATTEMPTS - attempts
    case _ => 0
  }

  function ChancesLeft(events: seq<Event>, moves: seq<Move>): nat {
    if moves == [] then 0
    else ChancesLeft(events, moves[..|moves| - 1]) + Chances(events, moves[|moves| - 1])
  }

  /** Toll moves and math moves of a proper demand: the ones with refusal memory. */
  predicate Remembered(m: Move) {
    m.Toll? || (m.Math? && m.demandId != "")
  }

  lemma {:induction false} FewerChances(events: seq<Event>, events': seq<Event>, moves: seq<Move>)
    requires forall m | m in moves :: Chances(events', m) <= Chances(events, m)
    ensures ChancesLeft(events', moves) <= ChancesLeft(events, moves)
    ensures (exists m :: m in moves && Chances(events', m) < Chances(events, m)) ==>
      ChancesLeft(events', moves) < ChancesLeft(events, moves)
  {
    hide Chances;
    if moves != [] {
      var n := |moves| - 1;
      assert moves == moves[..n] + [moves[n]];
      FewerChances(events, events', moves[..n]);
    }
  }

  lemma ChancesShrink(events: seq<Event>, input: Input, m: Move)
    ensures Chances(Iterated(events, input), m) <= Chances(events, m)
    ensures Remembered(m) && RefusedNow(events, input) && Picked(events, input).value == m ==>
      Chances(Iterated(events, input), m) < Chances(events, m)
  {
    PickIsEligible(events, input);
    hide Iterated, Picked, Attempts;
    match m
    case Toll(_, _, evidence) => TollMemory(events, input, evidence);
    case Math(_, _, demandId) =>
      if demandId != "" {
        MathMemory(events, input, demandId);
      } else {
        NoAttempts(events);
        NoAttempts(Iterated(events, input));
      }
    case _ =>
  }

  /** REFUSALS ARE BOUNDED. In any run whose refused picks are all among `moves`, their number is at
      most one per toll and two per math move of the list. */
  lemma {:induction false} RefusalsBounded(events: seq<Event>, inputs: seq<Input>, moves: seq<Move>)
    requires forall i | 0 <= i < |inputs| :: RefusedAmong(events, inputs, i, moves)
    ensures Refusals(events, inputs) + ChancesLeft(LogAfter(events, inputs), moves) <= ChancesLeft(events, moves)
  {
    hide Iterated, Picked, Chances, Remembered;
    if inputs != [] {
      var n := |inputs| - 1;
      forall i | 0 <= i < n ensures RefusedAmong(events, inputs[..n], i, moves) {
        assert RefusedAmong(events, inputs, i, moves);
        assert inputs[..n][..i] == inputs[..i];
      }
      RefusalsBounded(events, inputs[..n], moves);
      var log, input := LogAfter(events, inputs[..n]), inputs[n];
      assert RefusedAmong(events, inputs, n, moves);
      forall m | m in moves
        ensures Chances(Iterated(log, input), m) <= Chances(log, m)
        ensures Remembered(m) && RefusedNow(log, input) && Picked(log, input).value == m ==>
          Chances(Iterated(log, input), m) < Chances(log, m)
      {
        ChancesShrink(log, input, m);
      }
      FewerChances(log, Iterated(log, input), moves);
    }
  }

  ghost predicate RefusedAmong(events: seq<Event>, inputs: seq<Input>, i: nat, moves: seq<Move>)
    requires i < |inputs|
  {
    var log := LogAfter(events, inputs[..i]);
    RefusedNow(log, inputs[i]) ==> Picked(log, inputs[i]).value in moves && Remembered(Picked(log, inputs[i]).value)
  }

  lemma {:induction false} ChancesAtMost(events: seq<Event>, moves: seq<Move>)
    ensures ChancesLeft(events, moves) <= Caps(moves)
  {
    if moves != [] {
      ChancesAtMost(events, moves[..|moves| - 1]);
    }
  }

  /** #toll + MATH_MAX_ATTEMPTS * #math */
  function Caps(moves: seq<Move>): nat {
    if moves == [] then 0
    else
      var m := moves[|moves| - 1];
      Caps(moves[..|moves| - 1]) + if m.Toll? then 1 else if m.Math? then MATH_MAX_ATTEMPTS else 0
  }

  /** `n` iterations over a snapshot that stays as it is. */
  function Repeat(input: Input, n: nat): (inputs: seq<Input>)
    ensures |inputs| == n && forall i | 0 <= i < n :: inputs[i] == input
  {
    if n == 0 then [] else Repeat(input, n - 1) + [input]
  }

  lemma RepeatPrefix(input: Input, n: nat, i: nat)
    requires i <= n
    ensures Repeat(input, n)[..i] == Repeat(input, i)
  {
  }

  /** A snapshot that offers nothing but tolls and maths, all refused. */
  ghost predicate OnlyRefusals(input: Input) {
    forall m | m in AllMoves(input.snap) :: (m.Toll? || m.Math?) && input.refuses(m)
  }

  /** Every math move worth picking belongs to a demand with a proper id. */
  ghost predicate ProperIds(snap: Snapshot) {
    forall m | m in AllMoves(snap) && m.Math? && m.score > 0.0 :: m.demandId != ""
  }

  /** As long as something is picked, every iteration so far was a refusal. */
  lemma {:induction false} PickedSoFar(events: seq<Event>, input: Input, n: nat)
    requires OnlyRefusals(input)
    ensures Picked(LogAfter(events, Repeat(input, n)), input).Some? ==> Refusals(events, Repeat(input, n + 1)) == n + 1
  {
    hide Iterated, AllMoves, Eligible;
    RepeatPrefix(input, n + 1, n);
    PickIsEligible(LogAfter(events, Repeat(input, n)), input);
    if n > 0 {
      RepeatPrefix(input, n, n - 1);
      StaysConverged(LogAfter(events, Repeat(input, n - 1)), input);
      PickedSoFar(events, input, n - 1);
    }
  }

  /** Once converged, a run over the same snapshot stays converged. */
  lemma StaysConverged(events: seq<Event>, input: Input)
    ensures Picked(events, input).None? ==> Picked(Iterated(events, input), input).None?
  {
    hide AllMoves, Ranked, Iterated, Attempts;
    PickIsEligible(events, input);
    PickIsEligible(Iterated(events, input), input);
    forall m | m in AllMoves(input.snap) && !Eligible(events, m) ensures !Eligible(Iterated(events, input), m) {
      KeepsSuppressed(events, input, m);
    }
  }

  lemma KeepsSuppressed(events: seq<Event>, input: Input, m: Move)
    requires IsSuppressed(events, m)  || m.score <= 0.0
    ensures !Eligible(Iterated(events, input), m)
  {
    hide Iterated, Attempts;
    match m
    case Toll(_, _, evidence) => TollMemory(events, input, evidence);
    case Math(_, _, demandId) =>
      if demandId != "" {
        MathMemory(events, input, demandId);
      } else {
        NoAttempts(events);
        NoAttempts(Iterated(events, input));
      }
    case _ =>
  }

  lemma NoAttempts(events: seq<Event>)
    ensures Attempts(events, "") == 0
  {
  }

  /** CONVERGENCE. Take a snapshot with only toll and math moves, all refused, and at least
      #toll + MATH_MAX_ATTEMPTS * #math iterations: then nothing more is picked if and only if every
      math move worth picking has a proper demand id. (Refusals of the empty id are not counted.) */
  lemma RefusedRunConverges(events: seq<Event>, input: Input, n: nat)
    requires OnlyRefusals(input) && n >= Caps(AllMoves(input.snap))
    ensures Picked(LogAfter(events, Repeat(input, n)), input).None? <==> ProperIds(input.snap)
  {
    hide Iterated, Picked, AllMoves, Eligible, Chances, Remembered, OnlyRefusals, ProperIds;
    if ProperIds(input.snap) {
      ConvergesInTime(events, input, n);
    } else {
      EmptyIdNeverConverges(events, input, n);
    }
  }

  lemma ConvergesInTime(events: seq<Event>, input: Input, n: nat)
    requires OnlyRefusals(input) && ProperIds(input.snap) && n >= Caps(AllMoves(input.snap))
    ensures Picked(LogAfter(events, Repeat(input, n)), input).None?
  {
    hide Iterated, Picked, AllMoves, Chances;
    var moves := AllMoves(input.snap);
    var inputs := Repeat(input, n + 1);
    forall i | 0 <= i < n + 1 ensures RefusedAmong(events, inputs, i, moves) {
      RepeatPrefix(input, n + 1, i);
      PickIsEligible(LogAfter(events, Repeat(input, i)), input);
    }
    RefusalsBounded(events, inputs, moves);
    ChancesAtMost(events, moves);
    PickedSoFar(events, input, n);
  }

  lemma {:induction false} CapsAre(snap: Snapshot)
    requires snap.others == []
    ensures Caps(AllMoves(snap)) == |TollMoves(snap, snap.demand)| + 2 * |MathMoves(snap, snap.demand)|
  {
    TollCaps(snap, snap.demand);
    MathCaps(snap, snap.demand);
    CapsAdd(TollMoves(snap, snap.demand), MathMoves(snap, snap.demand));
    assert AllMoves(snap) == TollMoves(snap, snap.demand) + MathMoves(snap, snap.demand);
  }

  lemma {:induction false} CapsAdd(a: seq<Move>, b: seq<Move>)
    ensures Caps(a + b) == Caps(a) + Caps(b)
  {
    if b == [] {
      assert a + b == a;
    } else {
      assert (a + b)[..|a + b| - 1] == a + b[..|b| - 1];
      CapsAdd(a, b[..|b| - 1]);
    }
  }

  lemma {:induction false} TollCaps(snap: Snapshot, rows: seq<Row>)
    ensures Caps(TollMoves(snap, rows)) == |TollMoves(snap, rows)|
  {
    if rows != [] {
      var n := |rows| - 1;
      TollCaps(snap, rows[..n]);
      CapsAdd(TollMoves(snap, rows[..n]), if IsToll(rows[n]) then [TollMove(snap, rows[n])] else []);
    }
  }

  lemma {:induction false} MathCaps(snap: Snapshot, rows: seq<Row>)
    ensures Caps(MathMoves(snap, rows)) == MATH_MAX_ATTEMPTS * |MathMoves(snap, rows)|
  {
    if rows != [] {
      var n := |rows| - 1;
      MathCaps(snap, rows[..n]);
      CapsAdd(MathMoves(snap, rows[..n]), if IsMath(snap, rows[n]) then [MathMove(rows[n])] else []);
    }
  }

  /** A demand with an empty id is never remembered: something is picked forever. */
  lemma EmptyIdNeverConverges(events: seq<Event>, input: Input, n: nat)
    requires !ProperIds(input.snap)
    ensures Picked(LogAfter(events, Repeat(input, n)), input).Some?
  {
    hide AllMoves, Picked;
    PickIsEligible(LogAfter(events, Repeat(input, n)), input);
    NoAttempts(LogAfter(events, Repeat(input, n)));
  }

  // ---------------------------------------------------------------- rows, picks and memory

  /** The moves that are not listed here are of the other three kinds. */
  ghost predicate OtherKinds(snap: Snapshot) {
    forall m | m in snap.others :: !m.Toll? && !m.Math?
  }

  lemma {:induction false} TollMovesHave(snap: Snapshot, rows: seq<Row>, m: Move)
    ensures m in TollMoves(snap, rows) <==> exists r :: r in rows && IsToll(r) && m == TollMove(snap, r)
  {
    if rows != [] {
      hide TollMove, IsToll;
      var init, last := rows[..|rows| - 1], rows[|rows| - 1];
      assert rows == init + [last];
      TollMovesHave(snap, init, m);
    }
  }

  lemma {:induction false} MathMovesHave(snap: Snapshot, rows: seq<Row>, m: Move)
    ensures m in MathMoves(snap, rows) <==> exists r :: r in rows && IsMath(snap, r) && m == MathMove(r)
  {
    if rows != [] {
      hide MathMove, IsMath;
      var init, last := rows[..|rows| - 1], rows[|rows| - 1];
      assert rows == init + [last];
      MathMovesHave(snap, init, m);
    }
  }

  predicate OpenExogenous(r: Row) {
    r.kind == "math-source" && !(r.status == "retired") && r.origin.Some? && r.origin.value == "exogenous"
  }

  /** WHICH ROWS MAKE MOVES: the open caged incumbents, and the exogenous math sources that are neither
      retired nor served. */
  lemma RowsWithMoves(snap: Snapshot, name: string)
    requires OtherKinds(snap)
    ensures (exists m :: m in AllMoves(snap) && m.Toll? && m.key == "toll:" + name)
      <==> exists r :: r in snap.demand && r.kind == "caged-incumbent" && r.status == "open" && r.incumbent == name
    ensures (exists m :: m in AllMoves(snap) && m.Math? && m.demandId == name)
      <==> name !in snap.readings && exists r :: r in snap.demand && OpenExogenous(r) && r.demandId == name
    ensures forall m | m in AllMoves(snap) && m.Math? :: m.key == "math:" + m.demandId
  {
    forall m | m in AllMoves(snap) && m.Math? ensures m.key == "math:" + m.demandId {
      NotOther(snap, m);
      MathMovesHave(snap, snap.demand, m);
    }
    TollsOfRows(snap, name);
    MathsOfRows(snap, name);
  }

  lemma TollsOfRows(snap: Snapshot, name: string)
    requires OtherKinds(snap)
    ensures (exists m :: m in AllMoves(snap) && m.Toll? && m.key == "toll:" + name)
      <==> exists r :: r in snap.demand && r.kind == "caged-incumbent" && r.status == "open" && r.incumbent == name
  {
    if m :| m in AllMoves(snap) && m.Toll? && m.key == "toll:" + name {
      NotOther(snap, m);
      TollMovesHave(snap, snap.demand, m);
      var r :| r in snap.demand && IsToll(r) && m == TollMove(snap, r);
      SameKey(r.incumbent, name);
    }
    if r :| r in snap.demand && r.kind == "caged-incumbent" && r.status == "open" && r.incumbent == name {
      TollMovesHave(snap, snap.demand, TollMove(snap, r));
      assert TollMove(snap, r) in AllMoves(snap);
    }
  }

  lemma SameKey(a: string, b: string)
    requires "toll:" + a == "toll:" + b
    ensures a == b
  {
    assert ("toll:" + a)[5..] == a && ("toll:" + b)[5..] == b;
  }

  lemma MathsOfRows(snap: Snapshot, name: string)
    requires OtherKinds(snap)
    ensures (exists m :: m in AllMoves(snap) && m.Math? && m.demandId == name)
      <==> name !in snap.readings && exists r :: r in snap.demand && OpenExogenous(r) && r.demandId == name
  {
    if m :| m in AllMoves(snap) && m.Math? && m.demandId == name {
      NotOther(snap, m);
      MathMovesHave(snap, snap.demand, m);
    }
    if r :| name !in snap.readings && r in snap.demand && OpenExogenous(r) && r.demandId == name {
      MathMovesHave(snap, snap.demand, MathMove(r));
      assert MathMove(r) in AllMoves(snap);
    }
  }

  lemma NotOther(snap: Snapshot, m: Move)
    requires OtherKinds(snap) && m in AllMoves(snap)
    ensures m.Toll? ==> m in TollMoves(snap, snap.demand)
    ensures m.Math? ==> m in MathMoves(snap, snap.demand)
  {
    TollMovesHave(snap, snap.demand, m);
    MathMovesHave(snap, snap.demand, m);
  }

  /** Between moves of one score: coverage, requests, recurrence, tolls, maths; within a kind by key. */
  predicate NotBehind(p: Move, m: Move) {
    match m
    case Coverage(_, _) => p.Coverage? && Le(p.key, m.key)
    case Request(_, _) => p.Coverage? || (p.Request? && Le(p.key, m.key))
    case Recurrence(_, _) => p.Coverage? || p.Request? || (p.Recurrence? && Le(p.key, m.key))
    case Toll(_, _, _) => !p.Math? && (p.Toll? ==> Le(p.key, m.key))
    case Math(_, _, _) => p.Math? ==> Le(p.key, m.key)
  }

  /** THE PICK SCORES HIGHEST among the moves that score at all and are not suppressed. */
  lemma PickScoresHighest(events: seq<Event>, input: Input, m: Move)
    requires m in AllMoves(input.snap) && m.score > 0.0 && !IsSuppressed(events, m)
    ensures Picked(events, input).Some?
    ensures var p := Picked(events, input).value;
      && p in AllMoves(input.snap) && p.score > 0.0 && !IsSuppressed(events, p)
      && p.score >= m.score && (p.score == m.score ==> NotBehind(p, m))
  {
    hide AllMoves, IsSuppressed, NotBehind, RanksBefore;
    PickIsEligible(events, input);
    var moves := Ranked(input.snap);
    PickIsBest(events, moves);
    assert m in multiset(AllMoves(input.snap)) && m in multiset(moves);
    RankMeans(Picked(events, input).value, m);
  }

  lemma RankMeans(p: Move, m: Move)
    ensures p == m || RanksBefore(p, m) ==> p.score >= m.score && (p.score == m.score ==> NotBehind(p, m))
  {
    LeTotal(m.key, m.key);
  }

  /** WHAT IS SUPPRESSED: a math move whose demand was picked and refused twice, and no move of the kinds
      without memory. (Tolls: TollRememberedByCase.) */
  lemma SuppressedExactly(inputs: seq<Input>, m: Move)
    ensures m.Math? ==> (IsSuppressed(LogAfter([], inputs), m) <==> m.demandId != "" && MathRefusals([], inputs, m.demandId) >= 2)
    ensures !m.Math? && !m.Toll? ==> !IsSuppressed(LogAfter([], inputs), m)
  {
    hide LogAfter, MathRefusals;
    if m.Math? {
      if m.demandId != "" {
        MathRefusedTwiceAtMost([], inputs, m.demandId);
      } else {
        NoAttempts(LogAfter([], inputs));
      }
    }
  }

  /** How a refusal is logged: a toll's by its evidence, a math demand's by its id. */
  function RefusalIn(m: Move): Event {
    if m.Toll? then ConversionSuppressed(m.evidence) else if m.Math? then MathRefused(m.demandId) else Decision
  }

  /** WHAT AN ITERATION LOGS: a miss for every move, in the order of their ranks and marked if suppressed;
      the refusal if there was one; and the decision. */
  lemma IterationLog(events: seq<Event>, input: Input)
    ensures var moves, log := Ranked(input.snap), Iterated(events, input);
      var decided := |events| + |moves| + if RefusedNow(events, input) then 1 else 0;
      && |log| == decided + 1 && log[..|events|] == events && log[decided] == Decision
      && (forall i | 0 <= i < |moves| :: log[|events| + i] == Miss(moves[i].key, IsSuppressed(events, moves[i])))
      && (RefusedNow(events, input) ==> log[decided - 1] == RefusalIn(Picked(events, input).value))
  {
    MissesAre(events, Ranked(input.snap));
    hide Ranked, Picked, MissesOf, IsSuppressed;
  }

  lemma {:induction false} MissesAre(events: seq<Event>, moves: seq<Move>)
    ensures |MissesOf(events, moves)| == |moves|
    ensures forall i | 0 <= i < |moves| :: MissesOf(events, moves)[i] == Miss(moves[i].key, IsSuppressed(events, moves[i]))
  {
    hide IsSuppressed;
    if moves != [] {
      MissesAre(events, moves[..|moves| - 1]);
    }
  }

  function LiftBound(snap: Snapshot, r: Row): nat {
    if r.incumbent in snap.lifts then snap.lifts[r.incumbent] else 0
  }

  function ToolSurface(r: Row): string {
    match r.payloadRef
    case Some(ref) => if ref == "" then r.incumbent else ref
    case None => r.incumbent
  }

  /** The case for converting the two rows is the same: the same lift bound and the same tool surface. */
  predicate SameCase(snap: Snapshot, r: Row, snap': Snapshot, r': Row) {
    LiftBound(snap, r) == LiftBound(snap', r') && ToolSurface(r) == ToolSurface(r')
  }

  /** In iteration `i` of a run with an empty log the toll of this row was picked and refused. */
  predicate RefusedRow(inputs: seq<Input>, i: nat, r: Row) {
    && i < |inputs| && r in inputs[i].snap.demand && r.kind == "caged-incumbent" && r.status == "open"
    && RefusedNow(LogAfter([], inputs[..i]), inputs[i])
    && Picked(LogAfter([], inputs[..i]), inputs[i]) == Some(TollMove(inputs[i].snap, r))
  }

  function EvidenceOf(snap: Snapshot, r: Row): Evidence {
    TollMove(snap, r).evidence
  }

  lemma SameCaseSameEvidence(snap: Snapshot, r: Row, snap': Snapshot, r': Row)
    ensures EvidenceOf(snap, r) == EvidenceOf(snap', r') <==> SameCase(snap, r, snap', r')
  {
  }

  lemma RefusedRowEvidence(inputs: seq<Input>, i: nat, evidence: Evidence)
    requires i < |inputs| && OtherKinds(inputs[i].snap)
    ensures RefusesToll(LogAfter([], inputs[..i]), inputs[i], evidence)
      <==> exists r :: RefusedRow(inputs, i, r) && EvidenceOf(inputs[i].snap, r) == evidence
  {
    hide LogAfter, Picked, TollMove, EvidenceOf, AllMoves;
    var log, snap := LogAfter([], inputs[..i]), inputs[i].snap;
    if RefusesToll(log, inputs[i], evidence) {
      PickIsEligible(log, inputs[i]);
      var p := Picked(log, inputs[i]).value;
      NotOther(snap, p);
      TollMovesHave(snap, snap.demand, p);
      var r :| r in snap.demand && IsToll(r) && p == TollMove(snap, r);
      TollIs(snap, r);
      assert RefusedRow(inputs, i, r);
    }
    if r :| RefusedRow(inputs, i, r) && EvidenceOf(inputs[i].snap, r) == evidence {
      TollIs(snap, r);
    }
  }

  lemma TollIs(snap: Snapshot, r: Row)
    ensures TollMove(snap, r).Toll? && TollMove(snap, r).evidence == EvidenceOf(snap, r)
  {
  }

  lemma {:induction false} EvidenceRemembered(inputs: seq<Input>, evidence: Evidence)
    requires forall i | 0 <= i < |inputs| :: OtherKinds(inputs[i].snap)
    ensures ConversionSuppressed(evidence) in LogAfter([], inputs)
      <==> exists i: nat, r :: RefusedRow(inputs, i, r) && EvidenceOf(inputs[i].snap, r) == evidence
  {
    InRun(inputs);
    hide Iterated, Picked, EvidenceOf, RefusedRow;
    if inputs != [] {
      var n: nat := |inputs| - 1;
      var init := inputs[..n];
      EvidenceRemembered(init, evidence);
      TollMemory(LogAfter([], init), inputs[n], evidence);
      RefusedRowEvidence(inputs, n, evidence);
      SameStart(inputs, n);
      InRun(init);
      if i: nat, r :| RefusedRow(init, i, r) && EvidenceOf(init[i].snap, r) == evidence {
        assert RefusedRow(inputs, i, r) && EvidenceOf(inputs[i].snap, r) == evidence;
      }
      if r :| RefusedRow(inputs, n, r) && EvidenceOf(inputs[n].snap, r) == evidence {
        assert RefusedRow(inputs, n, r);
      }
      if i: nat, r :| RefusedRow(inputs, i, r) && EvidenceOf(inputs[i].snap, r) == evidence {
        assert i < n ==> RefusedRow(init, i, r) && EvidenceOf(init[i].snap, r) == evidence;
        assert i == n ==> RefusesToll(LogAfter([], init), inputs[n], evidence);
      }
    }
  }

  lemma SameStart(inputs: seq<Input>, n: nat)
    requires n <= |inputs|
    ensures forall i: nat, r | i < n :: RefusedRow(inputs, i, r) <==> RefusedRow(inputs[..n], i, r)
  {
    hide LogAfter, Picked, TollMove;
    forall i: nat, r | i < n ensures RefusedRow(inputs, i, r) <==> RefusedRow(inputs[..n], i, r) {
      assert inputs[..n][..i] == inputs[..i];
    }
  }

  /** WHAT A TOLL REFUSAL IS REMEMBERED BY. After any run the toll of a row is suppressed if and only if
      the toll of a row with the same lift bound and the same tool surface was picked and refused. */
  lemma TollRememberedByCase(inputs: seq<Input>, snap: Snapshot, r: Row)
    requires forall i | 0 <= i < |inputs| :: OtherKinds(inputs[i].snap)
    ensures IsSuppressed(LogAfter([], inputs), TollMove(snap, r))
      <==> exists i: nat, r' :: RefusedRow(inputs, i, r') && SameCase(inputs[i].snap, r', snap, r)
  {
    EvidenceRemembered(inputs, EvidenceOf(snap, r));
    hide LogAfter, RefusedRow, SameCase;
    forall i: nat, r' | i < |inputs|
      ensures EvidenceOf(inputs[i].snap, r') == EvidenceOf(snap, r) <==> SameCase(inputs[i].snap, r', snap, r)
    {
      SameCaseSameEvidence(inputs[i].snap, r', snap, r);
    }
    assert forall i: nat, r' | RefusedRow(inputs, i, r') :: i < |inputs| by {
      InRun(inputs);
    }
  }

  lemma InRun(inputs: seq<Input>)
    ensures forall i: nat, r | RefusedRow(inputs, i, r) :: i < |inputs|
  {
    hide LogAfter;
  }

  /** NO CASE IS FORGOTTEN. When a run of refusals has converged, every open caged row whose calls outweigh
      its replacement has had a refusal of its own case. */
  lemma EveryTollTried(input: Input, n: nat, r: Row)
    requires OnlyRefusals(input) && OtherKinds(input.snap) && ProperIds(input.snap) && n >= Caps(AllMoves(input.snap))
    requires r in input.snap.demand && r.kind == "caged-incumbent" && r.status == "open"
    requires r.incumbent in input.snap.calls
    requires 12.8 * Least(input.snap.calls[r.incumbent], HORIZON_H) > r.size as real + 256.0
    ensures exists i: nat, r' :: RefusedRow(Repeat(input, n), i, r') && SameCase(input.snap, r', input.snap, r)
  {
    var inputs := Repeat(input, n);
    ConvergesInTime([], input, n);
    PickIsEligible(LogAfter([], inputs), input);
    TollMovesHave(input.snap, input.snap.demand, TollMove(input.snap, r));
    WorthPicking(input.snap, r, input.snap.calls[r.incumbent]);
    assert TollMove(input.snap, r) in AllMoves(input.snap);
    assert !Eligible(LogAfter([], inputs), TollMove(input.snap, r));
    TollRememberedByCase(inputs, input.snap, r);
    hide *;
    var i: nat, r' :| RefusedRow(inputs, i, r') && SameCase(inputs[i].snap, r', input.snap, r);
    InRun(inputs);
  }

  /** One open exogenous math row with an empty id, always refused. */
  function NamelessDemand(): Input {
    var row := Row("math-source", "open", Some("exogenous"), "", 0, "", None);
    Input(Snapshot([row], {}, map[], map[], []), m => true)
  }

  /** NOT EVERY REFUSED SNAPSHOT CONVERGES: after any number of refusals the nameless demand is picked. */
  lemma NamelessPickedForever(n: nat)
    ensures OnlyRefusals(NamelessDemand()) && Caps(AllMoves(NamelessDemand().snap)) == MATH_MAX_ATTEMPTS
    ensures Picked(LogAfter([], Repeat(NamelessDemand(), n)), NamelessDemand()).Some?
  {
    hide Picked, LogAfter, Repeat;
    var input := NamelessDemand();
    var row := input.snap.demand[0];
    OnlyMove(input.snap, row);
    assert MathMove(row) in AllMoves(input.snap);
    CapsAre(input.snap);
    EmptyIdNeverConverges([], input, n);
  }

  /** A snapshot with a single math row has a single move. */
  lemma OnlyMove(snap: Snapshot, row: Row)
    requires snap.demand == [row] && snap.others == [] && IsMath(snap, row)
    ensures TollMoves(snap, snap.demand) == [] && MathMoves(snap, snap.demand) == [MathMove(row)]
    ensures AllMoves(snap) == [MathMove(row)]
  {
    assert [row][..0] == [];
  }
}
