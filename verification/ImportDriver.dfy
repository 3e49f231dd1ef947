/** The budgeted authoring wave of `buildloop/import_driver.py` as a machine that may be killed
    between any two durable writes: checkpoint line, ledger row, wave row, queue rewrite. */
module ImportDriver {
  import opened Order
  import opened Wrappers

  datatype Decl = Decl(name: string)
  datatype ArmName = Governed | Ungoverned
  datatype Key = Key(decl: Decl, arm: ArmName)
  datatype Outcome = Certified | Refused | FragmentMiss

  /** The item row of a (decl, arm); the checkpoint line carries the same row. */
  datatype Item = Item(key: Key, outcome: Outcome, tokens: nat)

  /** A ledger row. Notes stand for the admission and mining-error rows, which record zero tokens. */
  datatype Row = ItemRow(item: Item) | WaveRow(cost: real) | Note

  /** What an author call comes back with, classified. */
  datatype Reply = Quota | Answer(outcome: Outcome, tokens: nat)

  /** An author call and its reply. */
  datatype Call = Call(key: Key, reply: Reply)

  datatype Mode = FixedTotal | WeeklyQuota | UnknownMode
  datatype Grant = Grant(mode: Mode, granted: int, waveCap: Option<int>, expires: Option<int>)
  datatype Verdict = Denied(reason: string) | Allowed(remaining: Option<int>)
  datatype Halt = FrontierEmpty | BudgetExhausted | RefusalBreaker | CostBreaker | QuotaExhausted

  const REFUSAL_WINDOW: nat := 20
  const REFUSAL_RATE_MAX: real := 0.60
  const COST_BLOWOUT_FACTOR: real := 3.0
  const COST_BREAKER_MIN_ITEMS: nat := 5

  // ---------------------------------------------------------------- ledger and checkpoint

  /** The item rows of a ledger. */
  function Items(ledger: seq<Row>): seq<Item> {
    if ledger == [] then []
    else
      var row := ledger[|ledger| - 1];
      Items(ledger[..|ledger| - 1]) + if row.ItemRow? then [row.item] else []
  }

  function Total(items: seq<Item>): nat {
    if items == [] then 0 else Total(items[..|items| - 1]) + items[|items| - 1].tokens
  }

  /** `ledger_spent_ktokens`, in tokens. */
  function Spent(ledger: seq<Row>): nat {
    Total(Items(ledger))
  }

  function KeysOf(items: seq<Item>): set<Key> {
    if items == [] then {} else KeysOf(items[..|items| - 1]) + {items[|items| - 1].key}
  }

  /** The keys occur once each. */
  ghost predicate OncePerKey(items: seq<Item>) {
    items == [] || (OncePerKey(items[..|items| - 1]) && items[|items| - 1].key !in KeysOf(items[..|items| - 1]))
  }

  /** The item of a key; the last line wins. */
  function ItemFor(items: seq<Item>, key: Key): (item: Item)
    requires key in KeysOf(items)
    ensures item in items && item.key == key
  {
    var n := |items| - 1;
    if items[n].key == key then items[n] else ItemFor(items[..n], key)
  }

  lemma {:induction false} KeyIn(items: seq<Item>, item: Item)
    requires item in items
    ensures item.key in KeysOf(items)
  {
    var n := |items| - 1;
    if items[n] != item {
      assert items == items[..n] + [items[n]];
      KeyIn(items[..n], item);
    }
  }

  lemma {:induction false} OnlyItem(items: seq<Item>, item: Item)
    requires OncePerKey(items) && item in items
    ensures item.key in KeysOf(items) && ItemFor(items, item.key) == item
  {
    KeyIn(items, item);
    var n := |items| - 1;
    assert items == items[..n] + [items[n]];
    if items[n] != item {
      KeyIn(items[..n], item);
      OnlyItem(items[..n], item);
    }
  }

  lemma Appended(items: seq<Item>, item: Item)
    ensures KeysOf(items + [item]) == KeysOf(items) + {item.key}
    ensures Total(items + [item]) == Total(items) + item.tokens
    ensures OncePerKey(items) && item.key !in KeysOf(items) ==> OncePerKey(items + [item])
  {
    assert (items + [item])[..|items|] == items;
  }

  lemma RowAppended(ledger: seq<Row>, row: Row)
    ensures Items(ledger + [row]) == Items(ledger) + if row.ItemRow? then [row.item] else []
  {
    assert (ledger + [row])[..|ledger|] == ledger;
  }

  // ---------------------------------------------------------------- grant and breakers

  function CheckGrant(grant: Option<Grant>, spent: int, today: int): Verdict {
    if grant.None? then Denied("missing-grant")
    else
      var g := grant.value;
      if g.expires.None? then Denied("grant-has-no-expiry")
      else if today > g.expires.value then Denied("grant-expired")
      else if g.mode == FixedTotal then
        if spent >= g.granted then Denied("grant-exhausted") else Allowed(Some(g.granted - spent))
      else if g.mode == WeeklyQuota then Allowed(None)
      else Denied("unknown-grant-mode")
  }

  function Min(a: int, b: int): int {
    if a <= b then a else b
  }

  /** The effective budget of a wave: what was asked for, the grant's cap per wave, the remainder. */
  function Budget(asked: int, grant: Grant, remaining: Option<int>): int {
    var capped := if grant.waveCap.Some? && grant.waveCap.value > 0 then Min(asked, grant.waveCap.value) else asked;
    if remaining.Some? then Min(capped, remaining.value) else capped
  }

  /** A wave is allowed exactly by a grant that has not expired and, when it is a fixed total, is not
      spent; the remainder of a fixed total is what the ledger leaves of it. */
  lemma GrantAllows(grant: Option<Grant>, spent: int, today: int)
    ensures CheckGrant(grant, spent, today).Allowed? <==>
      && grant.Some? && grant.value.expires.Some? && today <= grant.value.expires.value
      && (grant.value.mode == WeeklyQuota || (grant.value.mode == FixedTotal && spent < grant.value.granted))
    ensures forall rest :: CheckGrant(grant, spent, today) == Allowed(Some(rest)) ==>
      rest > 0 && spent + rest == grant.value.granted
  {
  }

  /** Why a grant is refused, the first reason that applies. */
  lemma RefusedBecause(grant: Option<Grant>, spent: int, today: int)
    ensures var v := CheckGrant(grant, spent, today);
      && (grant.None? ==> v == Denied("missing-grant"))
      && (grant.Some? ==> var g := grant.value;
        && (g.expires.None? ==> v == Denied("grant-has-no-expiry"))
        && (g.expires.Some? && g.expires.value < today ==> v == Denied("grant-expired"))
        && (g.expires.Some? && today <= g.expires.value ==>
          && (g.mode == FixedTotal && g.granted <= spent ==> v == Denied("grant-exhausted"))
          && (g.mode != FixedTotal && g.mode != WeeklyQuota ==> v == Denied("unknown-grant-mode"))
          && (g.mode == FixedTotal && spent < g.granted ==> v == Allowed(Some(g.granted - spent)))
          && (g.mode == WeeklyQuota ==> v == Allowed(None))))
  {
  }

  /** The budget is the least of the limits that apply. */
  lemma BudgetIsLeast(asked: int, grant: Grant, remaining: Option<int>)
    ensures var budget := Budget(asked, grant, remaining);
      && budget <= asked
      && (grant.waveCap.Some? && grant.waveCap.value > 0 ==> budget <= grant.waveCap.value)
      && (remaining.Some? ==> budget <= remaining.value)
      && (budget == asked || Some(budget) == grant.waveCap || Some(budget) == remaining)
  {
  }

  function Count(outcomes: seq<Outcome>, o: Outcome): nat {
    if outcomes == [] then 0
    else Count(outcomes[..|outcomes| - 1], o) + if outcomes[|outcomes| - 1] == o then 1 else 0
  }

  /** How many of the outcomes are `o`. */
  lemma {:induction false} CountIs(outcomes: seq<Outcome>, o: Outcome)
    ensures Count(outcomes, o) == |Positions(outcomes, o)|
  {
    if outcomes != [] {
      CountIs(outcomes[..|outcomes| - 1], o);
      LastPosition(outcomes, o);
    }
  }

  function Positions(outcomes: seq<Outcome>, o: Outcome): set<nat> {
    set i: nat | i < |outcomes| && outcomes[i] == o
  }

  lemma LastPosition(outcomes: seq<Outcome>, o: Outcome)
    requires outcomes != []
    ensures var n: nat := |outcomes| - 1;
      && n !in Positions(outcomes[..n], o)
      && Positions(outcomes, o) == Positions(outcomes[..n], o) + if outcomes[n] == o then {n} else {}
  {
  }

  predicate RefusalFired(outcomes: seq<Outcome>) {
    |outcomes| >= REFUSAL_WINDOW
    && Count(outcomes[|outcomes| - REFUSAL_WINDOW..], Refused) as real / REFUSAL_WINDOW as real > REFUSAL_RATE_MAX
  }

  predicate NoMore(a: real, b: real) {
    a <= b
  }

  function Median(costs: seq<real>): real
    requires costs != []
  {
    var sorted := Sort(costs, NoMore);
    assert |multiset(sorted)| == |multiset(costs)|;
    var n := |costs|;
    if n % 2 == 1 then sorted[n / 2] else (sorted[n / 2 - 1] + sorted[n / 2]) / 2.0
  }

  /** The refusal breaker fires exactly at 13 refusals among the last 20 outcomes. */
  lemma RefusalThreshold(outcomes: seq<Outcome>)
    ensures RefusalFired(outcomes) <==>
      |outcomes| >= 20 && Count(outcomes[|outcomes| - 20..], Refused) >= 13
  {
    if |outcomes| >= 20 {
      var n := Count(outcomes[|outcomes| - 20..], Refused);
      assert n as real / 20.0 > 0.60 <==> n as real > 12.0;
    }
  }

  /** Half of the costs, in order, are at most the median and half are at least it; of an even number it is
      the mean of the two in the middle. */
  lemma MedianSplits(costs: seq<real>) returns (sorted: seq<real>)
    requires costs != []
    ensures multiset(sorted) == multiset(costs) && |sorted| == |costs|
    ensures forall i | 0 <= i < |sorted| && 2 * i < |sorted| :: sorted[i] <= Median(costs)
    ensures forall i | 0 <= i < |sorted| && 2 * i + 1 >= |sorted| :: Median(costs) <= sorted[i]
    ensures 2.0 * Median(costs) == sorted[(|sorted| - 1) / 2] + sorted[|sorted| / 2]
  {
    assert TotalPreorder(NoMore);
    sorted := Sort(costs, NoMore);
    assert |multiset(sorted)| == |multiset(costs)|;
    forall i, j | 0 <= i <= j < |sorted| ensures sorted[i] <= sorted[j] {
      assert i == j || NoMore(sorted[i], sorted[j]);
    }
  }

  /** With nothing certified the cost per certified statement is infinite as soon as it is positive. */
  predicate CostFired(spent: nat, certified: nat, costs: seq<real>, items: nat) {
    costs != [] && items >= COST_BREAKER_MIN_ITEMS
    && if certified == 0 then spent > 0
       else spent as real / certified as real > COST_BLOWOUT_FACTOR * Median(costs)
  }

  /** The cost breaker fires exactly when, from five outcomes on, the wave has spent more than three times
      the median cost for each certified statement. */
  lemma CostThreshold(spent: nat, certified: nat, costs: seq<real>, items: nat)
    ensures CostFired(spent, certified, costs, items) <==>
      costs != [] && items >= 5 && spent as real > 3.0 * certified as real * Median(costs)
  {
    hide Median;
    if costs != [] && certified > 0 {
      var c, limit := certified as real, 3.0 * Median(costs);
      Divided(spent as real, c, limit);
      assert limit * c == 3.0 * certified as real * Median(costs);
    }
  }

  lemma Divided(a: real, b: real, limit: real)
    requires b > 0.0
    ensures a / b > limit <==> a > limit * b
  {
    assert a == (a / b) * b;
    if a / b > limit {
      assert (a / b - limit) * b > 0.0;
    } else {
      assert (limit - a / b) * b >= 0.0;
    }
  }

  predicate BreakerFired(outcomes: seq<Outcome>, spent: nat, costs: seq<real>) {
    RefusalFired(outcomes) || CostFired(spent, Count(outcomes, Certified), costs, |outcomes|)
  }

  /** `ledger_wave_cost_history` */
  function CostHistory(ledger: seq<Row>): seq<real> {
    if ledger == [] then []
    else
      var row := ledger[|ledger| - 1];
      CostHistory(ledger[..|ledger| - 1]) + if row.WaveRow? && row.cost > 0.0 then [row.cost] else []
  }

  function WaveCost(w: Wave): real {
    var certified := Count(w.outcomes, Certified);
    if certified == 0 then 0.0 else w.spent as real / certified as real
  }

  /** Each positive wave cost of the ledger, in order. */
  lemma {:induction false} HistoryIs(ledger: seq<Row>, cost: real)
    ensures cost in CostHistory(ledger) <==> cost > 0.0 && WaveRow(cost) in ledger
    ensures |CostHistory(ledger)| <= |ledger|
  {
    if ledger != [] {
      var init, last := ledger[..|ledger| - 1], ledger[|ledger| - 1];
      assert ledger == init + [last];
      HistoryIs(init, cost);
    }
  }

  // ---------------------------------------------------------------- the machine

  /** What survives a kill. A declaration is pending in the queue while it is not in `settled`. */
  datatype Disk = Disk(lines: seq<Item>, ledger: seq<Row>, settled: map<Decl, Outcome>)

  /** Where a wave is: collecting a batch; writing down its replies, `done` of them finished and the
      next one already in the checkpoint if `saved`; or behind its wave row. */
  datatype Stage = Collecting | Recording(replies: seq<Reply>, done: nat, saved: bool) | Closing

  /** What `run_wave` keeps in memory. */
  datatype Wave = Wave(
    arm: ArmName, width: nat, budget: int, costs: seq<real>, frontier: seq<Decl>, next: nat, batch: seq<Decl>,
    stage: Stage, spent: nat, outcomes: seq<Outcome>, seen: set<Key>, settled: map<Decl, Outcome>,
    quota: bool, halt: Option<Halt>)

  /** The whole history so far: what is on disk, the wave in progress if any, and counters of what has
      happened (`lastBatch`: tokens of the batch dispatched last; `lost`: tokens of answers that a
      kill swallowed; `replayed`: tokens of rows appended late). */
  datatype Sys = Sys(
    disk: Disk, wave: Option<Wave>, calls: seq<Call>, paid: nat, lost: nat, replayed: nat, lastBatch: nat, kills: nat)

  datatype Setting = Setting(grant: Option<Grant>, order: seq<Decl>)

  datatype Action =
    | Start(arm: ArmName, asked: int, concurrency: nat, today: int)
    | Take | Dispatch(replies: seq<Reply>) | Stop | Save | Post | Skip | Settle | Remark
    | CloseLedger | CloseQueue | Kill

  const NOTHING: Sys := Sys(Disk([], [], map[]), None, [], 0, 0, 0, 0, 0)

  function PendingOf(order: seq<Decl>, settled: map<Decl, Outcome>): seq<Decl> {
    if order == [] then []
    else
      var d := order[|order| - 1];
      PendingOf(order[..|order| - 1], settled) + if d in settled then [] else [d]
  }

  function CallsFor(decls: seq<Decl>, arm: ArmName, replies: seq<Reply>): seq<Call>
    requires |replies| == |decls|
  {
    seq(|decls|, i requires 0 <= i < |decls| => Call(Key(decls[i], arm), replies[i]))
  }

  function TokensOf(replies: seq<Reply>): nat {
    if replies == [] then 0
    else (if replies[0].Answer? then replies[0].tokens else 0) + TokensOf(replies[1..])
  }

  function Opened(setting: Setting, disk: Disk, arm: ArmName, concurrency: nat, budget: int): Wave {
    Wave(arm, if concurrency == 0 then 1 else concurrency, budget, CostHistory(disk.ledger),
         PendingOf(setting.order, disk.settled), 0, [], Collecting, 0, [], KeysOf(Items(disk.ledger)), disk.settled,
         false, None)
  }

  /** The row for the next reply. */
  function NextItem(w: Wave): Item
    requires w.stage.Recording? && w.stage.done < |w.batch| && w.stage.done < |w.stage.replies|
    requires w.stage.replies[w.stage.done].Answer?
  {
    var reply := w.stage.replies[w.stage.done];
    Item(Key(w.batch[w.stage.done], w.arm), reply.outcome, reply.tokens)
  }

  predicate AtAnswer(w: Wave) {
    w.stage.Recording? && w.stage.done < |w.stage.replies| == |w.batch| && w.stage.replies[w.stage.done].Answer?
  }

  predicate BatchFull(w: Wave) {
    w.stage.Collecting? && w.halt.None? && w.batch != [] && (|w.batch| == w.width || w.next == |w.frontier|)
  }

  predicate LoopOver(w: Wave) {
    w.stage.Collecting? && (w.halt.Some? || (w.next == |w.frontier| && w.batch == []))
  }

  /** Bookkeeping behind the ledger append. */
  function Billed(w: Wave, item: Item): Wave
    requires w.stage.Recording?
  {
    var outcomes, spent := w.outcomes + [item.outcome], w.spent + item.tokens;
    w.(seen := w.seen + {item.key}, outcomes := outcomes, spent := spent,
       settled := w.settled[item.key.decl := item.outcome],
       stage := Recording(w.stage.replies, w.stage.done + 1, false),
       halt := if w.halt.Some? then w.halt
               else if RefusalFired(outcomes) then Some(RefusalBreaker)
               else if CostFired(spent, Count(outcomes, Certified), w.costs, |outcomes|) then Some(CostBreaker)
               else None)
  }

  /** Tokens of answers that are in memory only. */
  function InMemory(wave: Option<Wave>): nat {
    match wave
    case Some(Wave(_, _, _, _, _, _, _, Recording(replies, done, saved), _, _, _, _, _, _)) =>
      var from := if saved then done + 1 else done;
      if from <= |replies| then TokensOf(replies[from..]) else 0
    case _ => 0
  }

  /** One frontier row: a checkpointed one is replayed, another joins the batch. */
  function Taken(s: Sys, w: Wave): Sys
    requires w.next < |w.frontier|
  {
    var key := Key(w.frontier[w.next], w.arm);
    if key in KeysOf(s.disk.lines) then
      var item := ItemFor(s.disk.lines, key);
      var w' := w.(next := w.next + 1, settled := w.settled[key.decl := item.outcome]);
      if key in w.seen then s.(wave := Some(w'))
      else
        s.(wave := Some(w'.(seen := w.seen + {key})),
           disk := s.disk.(ledger := s.disk.ledger + [ItemRow(item)]), replayed := s.replayed + item.tokens)
    else s.(wave := Some(w.(next := w.next + 1, batch := w.batch + [key.decl])))
  }

  /** The next state, if the action is possible. */
  function Do(setting: Setting, s: Sys, a: Action): Option<Sys> {
    match (a, s.wave)
    case (Start(arm, asked, concurrency, today), None) =>
      var verdict := CheckGrant(setting.grant, Spent(s.disk.ledger), today);
      if verdict.Denied? || setting.grant.None? then None
      else
        var budget := Budget(asked, setting.grant.value, verdict.remaining);
        if budget <= 0 then None
        else Some(s.(wave := Some(Opened(setting, s.disk, arm, concurrency, budget))))
    case (Take, Some(w)) =>
      if w.stage.Collecting? && w.halt.None? && w.next < |w.frontier| && |w.batch| < w.width then Some(Taken(s, w))
      else None
    case (Dispatch(replies), Some(w)) =>
      if BatchFull(w) && w.spent < w.budget && |replies| == |w.batch| then
        Some(s.(wave := Some(w.(stage := Recording(replies, 0, false), quota := false)),
                calls := s.calls + CallsFor(w.batch, w.arm, replies), paid := s.paid + TokensOf(replies),
                lastBatch := TokensOf(replies)))
      else None
    case (Stop, Some(w)) =>
      if BatchFull(w) && w.spent >= w.budget then
        Some(s.(wave := Some(w.(batch := [], halt := Some(BudgetExhausted)))))
      else None
    case (Save, Some(w)) =>
      if AtAnswer(w) && !w.stage.saved then
        Some(s.(disk := s.disk.(lines := s.disk.lines + [NextItem(w)]),
                wave := Some(w.(stage := Recording(w.stage.replies, w.stage.done, true)))))
      else None
    case (Post, Some(w)) =>
      if AtAnswer(w) && w.stage.saved then
        Some(s.(disk := s.disk.(ledger := s.disk.ledger + [ItemRow(NextItem(w))]),
                wave := Some(Billed(w, NextItem(w)))))
      else None
    case (Skip, Some(w)) =>
      if w.stage.Recording? && w.stage.done < |w.stage.replies| && w.stage.replies[w.stage.done].Quota? then
        Some(s.(wave := Some(w.(quota := true, stage := Recording(w.stage.replies, w.stage.done + 1, false)))))
      else None
    case (Settle, Some(w)) =>
      if w.stage.Recording? && w.stage.done == |w.stage.replies| then
        Some(s.(wave := Some(w.(batch := [], stage := Collecting,
                                halt := if w.quota && w.halt.None? then Some(QuotaExhausted) else w.halt))))
      else None
    case (Remark, Some(w)) =>
      if w.stage.Closing? || (w.stage.Recording? && w.stage.saved) then None
      else Some(s.(disk := s.disk.(ledger := s.disk.ledger + [Note])))
    case (CloseLedger, Some(w)) =>
      if LoopOver(w) then
        Some(s.(disk := s.disk.(ledger := s.disk.ledger + [WaveRow(WaveCost(w))]),
                wave := Some(w.(stage := Closing, halt := if w.halt.None? then Some(FrontierEmpty) else w.halt))))
      else None
    case (CloseQueue, Some(w)) =>
      if w.stage.Closing? then Some(s.(disk := s.disk.(settled := w.settled), wave := None))
      else None
    case (Kill, Some(w)) => Some(s.(wave := None, lost := s.lost + InMemory(s.wave), kills := s.kills + 1))
    case _ => None
  }

  /** The state after a list of actions, if all were possible. */
  ghost function Exec(setting: Setting, s: Sys, actions: seq<Action>): Option<Sys> {
    if actions == [] then Some(s)
    else
      var before := Exec(setting, s, actions[..|actions| - 1]);
      if before.None? then None else Do(setting, before.value, actions[|actions| - 1])
  }

  // ---------------------------------------------------------------- what every step keeps

  ghost predicate Backed(settled: map<Decl, Outcome>, items: seq<Item>) {
    forall d | d in settled :: exists item :: item in items && item.key.decl == d && item.outcome == settled[d]
  }

  ghost predicate DiskOk(setting: Setting, d: Disk) {
    && OncePerKey(d.lines) && OncePerKey(Items(d.ledger))
    && (forall item | item in Items(d.ledger) :: item in d.lines)
    && (forall item | item in d.lines :: item.key.decl in setting.order)
    && Backed(d.settled, Items(d.ledger))
  }

  /** WHAT ONE ANSWER DOES TO ITS WAVE: the outcome and the tokens are counted, the declaration is settled,
      and a wave that was going on halts exactly by the refusal rule, and otherwise by the cost rule. */
  lemma AnswerDecides(setting: Setting, s: Sys, s': Sys)
    requires Do(setting, s, Post) == Some(s')
    ensures s.wave.Some? && s'.wave.Some? && AtAnswer(s.wave.value)
    ensures var w, w' := s.wave.value, s'.wave.value;
      var reply := w.stage.replies[w.stage.done];
      var decl := w.batch[w.stage.done];
      var refused := |w'.outcomes| >= 20 && Count(w'.outcomes[|w'.outcomes| - 20..], Refused) >= 13;
      var dear := w.costs != [] && |w'.outcomes| >= 5
        && w'.spent as real > 3.0 * Count(w'.outcomes, Certified) as real * Median(w.costs);
      && w'.outcomes == w.outcomes + [reply.outcome] && w'.spent == w.spent + reply.tokens
      && w'.settled == w.settled[decl := reply.outcome]
      && s'.disk.ledger == s.disk.ledger + [ItemRow(Item(Key(decl, w.arm), reply.outcome, reply.tokens))]
      && w'.halt == (if w.halt.Some? then w.halt else if refused then Some(RefusalBreaker)
                     else if dear then Some(CostBreaker) else None)
  {
    hide KeysOf, Items, Median, Count, RefusalFired, CostFired;
    var w' := s'.wave.value;
    RefusalThreshold(w'.outcomes);
    CostThreshold(w'.spent, Count(w'.outcomes, Certified), w'.costs, |w'.outcomes|);
  }

  /** So much for each certified statement, and nothing where there is none. */
  predicate CostEach(cost: real, spent: nat, certified: nat) {
    if certified == 0 then cost == 0.0 else cost * certified as real == spent as real
  }

  /** WHAT ENDS A WAVE OTHERWISE: a quota signal in a batch, behind the whole batch; a spent budget, in front
      of a batch; an exhausted frontier. The wave row has what a certified statement cost. */
  lemma EndsDecide(setting: Setting, s: Sys, s': Sys)
    requires s.wave.Some?
    ensures Do(setting, s, Settle) == Some(s') ==>
      s'.wave.Some? && s'.wave.value.halt
        == (if s.wave.value.halt.Some? then s.wave.value.halt else if s.wave.value.quota then Some(QuotaExhausted) else None)
    ensures Do(setting, s, Stop) == Some(s') ==>
      s.wave.value.spent >= s.wave.value.budget && s'.wave.Some? && s'.wave.value.halt == Some(BudgetExhausted)
    ensures Do(setting, s, CloseLedger) == Some(s') ==>
      && s'.wave.Some?
      && s'.wave.value.halt == (if s.wave.value.halt.Some? then s.wave.value.halt else Some(FrontierEmpty))
      && (s.wave.value.halt.None? ==> s.wave.value.next == |s.wave.value.frontier| && s.wave.value.batch == [])
      && |s'.disk.ledger| == |s.disk.ledger| + 1 && s.disk.ledger <= s'.disk.ledger
      && s'.disk.ledger[|s.disk.ledger|].WaveRow?
      && CostEach(s'.disk.ledger[|s.disk.ledger|].cost, s.wave.value.spent, Count(s.wave.value.outcomes, Certified))
    ensures Do(setting, s, CloseQueue) == Some(s') ==> s'.wave.None? && s'.disk.settled == s.wave.value.settled
  {
    hide KeysOf, Items, Count;
    var n := Count(s.wave.value.outcomes, Certified);
    if n > 0 {
      assert s.wave.value.spent as real / n as real * n as real == s.wave.value.spent as real;
    }
  }

  /** WHAT OPENS A WAVE: an allowed grant with something left of the budget; at least one call at a time; the
      pending declarations in the order of the queue. */
  lemma StartDecides(setting: Setting, s: Sys, start: Action, s': Sys)
    requires start.Start? && Do(setting, s, start) == Some(s')
    ensures s.wave.None? && s'.wave.Some? && s'.disk == s.disk && setting.grant.Some?
    ensures var w := s'.wave.value;
      && w.arm == start.arm && w.width == (if start.concurrency > 0 then start.concurrency else 1)
      && 0 < w.budget <= start.asked && w.costs == CostHistory(s.disk.ledger)
      && w.frontier == PendingOf(setting.order, s.disk.settled) && w.next == 0 && w.batch == []
      && w.spent == 0 && w.outcomes == [] && w.halt.None? && !w.quota && w.settled == s.disk.settled
  {
    hide KeysOf, Items, Total, CheckGrant, PendingOf, CostHistory;
  }

  /** The pending declarations keep the order of the queue. */
  lemma {:induction false} PendingInOrder(order: seq<Decl>, settled: map<Decl, Outcome>, i: nat, j: nat) returns (a: nat, b: nat)
    requires i < j < |PendingOf(order, settled)|
    ensures a < b < |order| && order[a] == PendingOf(order, settled)[i] && order[b] == PendingOf(order, settled)[j]
  {
    var init := order[..|order| - 1];
    var pending := PendingOf(init, settled);
    if j < |pending| {
      a, b := PendingInOrder(init, settled, i, j);
    } else {
      b := |order| - 1;
      a := PendingAt(init, settled, i);
    }
  }

  lemma {:induction false} PendingAt(order: seq<Decl>, settled: map<Decl, Outcome>, i: nat) returns (a: nat)
    requires i < |PendingOf(order, settled)|
    ensures a < |order| && order[a] == PendingOf(order, settled)[i]
  {
    var init := order[..|order| - 1];
    if i < |PendingOf(init, settled)| {
      a := PendingAt(init, settled, i);
    } else {
      a := |order| - 1;
    }
  }

  ghost predicate DistinctDecls(decls: seq<Decl>) {
    forall i, j | 0 <= i < j < |decls| :: decls[i] != decls[j]
  }

  /** The row of the next reply is in the checkpoint and not yet in the ledger. */
  predicate Limbo(w: Wave) {
    w.stage.Recording? && w.stage.saved
  }

  /** The batch from here on has no checkpoint line. */
  function FirstUnsaved(w: Wave): nat {
    if w.stage.Recording? then if w.stage.saved then w.stage.done + 1 else w.stage.done else 0
  }

  ghost predicate BatchOk(d: Disk, w: Wave) {
    && w.next <= |w.frontier|
    && (w.stage.Recording? ==> |w.stage.replies| == |w.batch| && w.stage.done <= |w.batch|)
    && (Limbo(w) ==> AtAnswer(w) && NextItem(w) in d.lines && NextItem(w).key !in w.seen)
    && DistinctDecls(w.batch)
    && (forall i | 0 <= i < |w.batch| :: w.batch[i] in w.frontier[..w.next])
    && (forall i | FirstUnsaved(w) <= i < |w.batch| :: Key(w.batch[i], w.arm) !in KeysOf(d.lines))
  }

  /** A scan leaves no checkpointed row behind, and what a wave settles has its row on the wave's arm. */
  ghost predicate Scanned(d: Disk, w: Wave)
    requires w.next <= |w.frontier| && (Limbo(w) ==> AtAnswer(w))
  {
    && (forall j | 0 <= j < w.next && Key(w.frontier[j], w.arm) in KeysOf(d.lines) ::
          Key(w.frontier[j], w.arm) in w.seen || (Limbo(w) && NextItem(w).key == Key(w.frontier[j], w.arm)))
    && (forall decl | decl in w.settled && decl !in d.settled :: Key(decl, w.arm) in w.seen)
  }

  /** The batch from here on has not been settled. */
  function FirstUnsettled(w: Wave): (n: nat)
    ensures n <= |w.batch|
  {
    if w.stage.Recording? then if w.stage.done <= |w.batch| then w.stage.done else |w.batch| else 0
  }

  /** As long as no quota signal came, a scan settles all it passes. */
  ghost predicate Covered(w: Wave)
    requires w.next <= |w.frontier|
  {
    && (w.halt.None? && !w.quota ==>
          forall j | 0 <= j < w.next :: w.frontier[j] in w.settled || w.frontier[j] in w.batch[FirstUnsettled(w)..])
    && (w.quota && !w.stage.Recording? ==> w.halt.Some?)
    && (w.stage.Closing? ==> w.halt.Some? && (w.halt.value.FrontierEmpty? ==> AllSettled(w) && w.next == |w.frontier|))
    && (!w.stage.Closing? && w.halt.Some? ==> !w.halt.value.FrontierEmpty?)
  }

  ghost predicate AllSettled(w: Wave) {
    forall d | d in w.frontier :: d in w.settled
  }

  ghost predicate WaveOk(setting: Setting, d: Disk, w: Wave) {
    && w.seen == KeysOf(Items(d.ledger))
    && w.next <= |w.frontier| && DistinctDecls(w.frontier)
    && w.frontier == PendingOf(setting.order, d.settled)
    && BatchOk(d, w) && Scanned(d, w) && Covered(w)
    && Backed(w.settled, Items(d.ledger)) && d.settled.Keys <= w.settled.Keys
    && (w.halt.None? ==> !BreakerFired(w.outcomes, w.spent, w.costs))
    && (w.halt == Some(BudgetExhausted) ==> w.spent >= w.budget)
  }

  /** Tokens of the replies that have no ledger row yet. */
  function Outstanding(wave: Option<Wave>): nat {
    if wave.Some? && wave.value.stage.Recording? && wave.value.stage.done <= |wave.value.stage.replies|
    then TokensOf(wave.value.stage.replies[wave.value.stage.done..]) else 0
  }

  /** Every token an author call returned is in the checkpoint, in memory, or was swallowed by a kill. */
  ghost predicate Accounted(s: Sys) {
    s.paid == Total(s.disk.lines) + InMemory(s.wave) + s.lost
  }

  /** Without kills the ledger repeats the checkpoint, up to the row being written. */
  ghost predicate Undisturbed(s: Sys) {
    s.kills == 0 ==>
      && s.replayed == 0 && s.lost == 0
      && if s.wave.Some? && Limbo(s.wave.value) && AtAnswer(s.wave.value)
         then s.disk.lines == Items(s.disk.ledger) + [NextItem(s.wave.value)]
         else s.disk.lines == Items(s.disk.ledger)
  }

  ghost predicate WithinGrant(setting: Setting, s: Sys) {
    (setting.grant.Some? && setting.grant.value.mode == FixedTotal) ==>
      var granted := setting.grant.value.granted;
      && (s.wave.Some? ==>
            Spent(s.disk.ledger) + s.wave.value.budget <= granted + s.wave.value.spent + s.replayed)
      && (s.calls != [] ==>
            Spent(s.disk.ledger) + Outstanding(s.wave) < granted + s.lastBatch + s.replayed)
  }

  ghost predicate Inv(setting: Setting, s: Sys) {
    && DiskOk(setting, s.disk)
    && (s.wave.Some? ==> WaveOk(setting, s.disk, s.wave.value))
    && Accounted(s) && Undisturbed(s) && WithinGrant(setting, s)
  }

  lemma {:induction false} PendingIs(order: seq<Decl>, settled: map<Decl, Outcome>)
    ensures DistinctDecls(order) ==> DistinctDecls(PendingOf(order, settled))
    ensures forall d :: d in PendingOf(order, settled) <==> d in order && d !in settled
  {
    if order != [] {
      var n := |order| - 1;
      PendingIs(order[..n], settled);
      assert order == order[..n] + [order[n]];
    }
  }

  lemma KeepsStart(setting: Setting, s: Sys, a: Action, s': Sys)
    requires DistinctDecls(setting.order) && Inv(setting, s) && Do(setting, s, a) == Some(s') && a.Start?
    ensures Inv(setting, s')
  {
    hide RefusalFired, CostFired, Backed, OncePerKey, KeysOf, Items, Total, PendingOf, CostHistory;
    PendingIs(setting.order, s.disk.settled);
    NothingFired(s'.wave.value.costs);
  }

  lemma NothingFired(costs: seq<real>)
    ensures !BreakerFired([], 0, costs)
  {
  }

  lemma TakeMoves(d: Disk, w: Wave)
    requires BatchOk(d, w) && Scanned(d, w) && DistinctDecls(w.frontier) && w.next < |w.frontier| && w.stage.Collecting?
    ensures DistinctDecls(w.batch + [w.frontier[w.next]]) && w.frontier[w.next] in w.frontier[..w.next + 1]
    ensures var w' := w.(next := w.next + 1);
      && BatchOk(d, w')
      && (forall j | 0 <= j < w.next && Key(w.frontier[j], w.arm) in KeysOf(d.lines) :: Key(w.frontier[j], w.arm) in w.seen)
  {
    hide KeysOf;
    assert w.frontier[..w.next + 1] == w.frontier[..w.next] + [w.frontier[w.next]];
    var p := w.frontier[..w.next];
    forall j | 0 <= j < w.next ensures w.frontier[j] == p[j] && w.frontier[j] != w.frontier[w.next] {
    }
  }

  /** The row of a checkpointed declaration reaches the ledger late. */
  lemma RowArrives(d: Disk, item: Item)
    requires OncePerKey(Items(d.ledger)) && item in d.lines && item.key !in KeysOf(Items(d.ledger))
    requires forall x | x in Items(d.ledger) :: x in d.lines
    ensures var items := Items(d.ledger + [ItemRow(item)]);
      && OncePerKey(items) && (forall x | x in items :: x in d.lines)
      && items == Items(d.ledger) + [item] && KeysOf(items) == KeysOf(Items(d.ledger)) + {item.key}
      && Spent(d.ledger + [ItemRow(item)]) == Spent(d.ledger) + item.tokens
  {
    RowAppended(d.ledger, ItemRow(item));
    Appended(Items(d.ledger), item);
  }

  lemma BackedMore(settled: map<Decl, Outcome>, items: seq<Item>, items': seq<Item>, item: Item)
    requires Backed(settled, items) && items <= items' && item in items'
    ensures Backed(settled, items') && Backed(settled[item.key.decl := item.outcome], items')
  {
    forall d | d in settled ensures exists x :: x in items' && x.key.decl == d && x.outcome == settled[d] {
      var x :| x in items && x.key.decl == d && x.outcome == settled[d];
      assert x in items';
    }
  }

  function NextKey(w: Wave): Key
    requires w.next < |w.frontier|
  {
    Key(w.frontier[w.next], w.arm)
  }

  lemma TakeJoins(setting: Setting, s: Sys, s': Sys)
    requires Inv(setting, s) && Do(setting, s, Take) == Some(s') && NextKey(s.wave.value) !in KeysOf(s.disk.lines)
    ensures Inv(setting, s')
  {
    hide BreakerFired, Backed, OncePerKey, KeysOf, Items, Total, PendingOf, DistinctDecls, TokensOf,
      RefusalFired, CostFired, NextItem;
    TakeMoves(s.disk, s.wave.value);
  }

  lemma TakePasses(setting: Setting, s: Sys, s': Sys)
    requires Inv(setting, s) && Do(setting, s, Take) == Some(s')
    requires NextKey(s.wave.value) in KeysOf(s.disk.lines) && NextKey(s.wave.value) in s.wave.value.seen
    ensures Inv(setting, s')
  {
    hide BreakerFired, Backed, OncePerKey, KeysOf, Items, Total, PendingOf, DistinctDecls, TokensOf,
      RefusalFired, CostFired, NextItem;
    var w := s.wave.value;
    TakeMoves(s.disk, w);
    var row := ItemFor(Items(s.disk.ledger), NextKey(w));
    OnlyItem(s.disk.lines, row);
    BackedMore(w.settled, Items(s.disk.ledger), Items(s.disk.ledger), row);
  }

  lemma TakeReplaysTokens(setting: Setting, s: Sys, s': Sys)
    requires Inv(setting, s) && Do(setting, s, Take) == Some(s')
    requires NextKey(s.wave.value) in KeysOf(s.disk.lines) && NextKey(s.wave.value) !in s.wave.value.seen
    ensures Accounted(s') && Undisturbed(s') && WithinGrant(setting, s')
  {
    hide BreakerFired, Backed, OncePerKey, KeysOf, Items, Total, PendingOf, DistinctDecls, TokensOf,
      RefusalFired, CostFired, NextItem, Covered, Scanned, BatchOk;
    RowArrives(s.disk, ItemFor(s.disk.lines, NextKey(s.wave.value)));
  }

  lemma TakeReplaysOnDisk(setting: Setting, s: Sys, s': Sys)
    requires Inv(setting, s) && Do(setting, s, Take) == Some(s')
    requires NextKey(s.wave.value) in KeysOf(s.disk.lines) && NextKey(s.wave.value) !in s.wave.value.seen
    ensures DiskOk(setting, s'.disk)
    ensures s'.wave.value.seen == KeysOf(Items(s'.disk.ledger)) && Backed(s'.wave.value.settled, Items(s'.disk.ledger))
  {
    hide BreakerFired, Backed, OncePerKey, KeysOf, Items, Total, PendingOf, DistinctDecls, TokensOf,
      RefusalFired, CostFired, NextItem, Accounted, Undisturbed, WithinGrant, BatchOk, Scanned, Covered;
    var w := s.wave.value;
    var item := ItemFor(s.disk.lines, NextKey(w));
    RowArrives(s.disk, item);
    BackedMore(w.settled, Items(s.disk.ledger), Items(s'.disk.ledger), item);
    BackedMore(s.disk.settled, Items(s.disk.ledger), Items(s'.disk.ledger), item);
  }

  lemma TakeReplaysInMemory(setting: Setting, s: Sys, s': Sys)
    requires Inv(setting, s) && Do(setting, s, Take) == Some(s')
    requires NextKey(s.wave.value) in KeysOf(s.disk.lines) && NextKey(s.wave.value) !in s.wave.value.seen
    ensures BatchOk(s'.disk, s'.wave.value) && Scanned(s'.disk, s'.wave.value) && Covered(s'.wave.value)
  {
    hide BreakerFired, Backed, OncePerKey, KeysOf, Items, PendingOf, DistinctDecls,
      RefusalFired, CostFired, NextItem, Accounted, Undisturbed, WithinGrant, DiskOk;
    TakeMoves(s.disk, s.wave.value);
  }

  lemma TakeReplays(setting: Setting, s: Sys, s': Sys)
    requires Inv(setting, s) && Do(setting, s, Take) == Some(s')
    requires NextKey(s.wave.value) in KeysOf(s.disk.lines) && NextKey(s.wave.value) !in s.wave.value.seen
    ensures Inv(setting, s')
  {
    hide BreakerFired, Backed, OncePerKey, KeysOf, Items, Total, PendingOf, DistinctDecls, TokensOf,
      NextItem, Accounted, Undisturbed, WithinGrant, BatchOk, Scanned, Covered, DiskOk;
    TakeReplaysTokens(setting, s, s');
    TakeReplaysOnDisk(setting, s, s');
    TakeReplaysInMemory(setting, s, s');
  }

  lemma KeepsTake(setting: Setting, s: Sys, s': Sys)
    requires Inv(setting, s) && Do(setting, s, Take) == Some(s')
    ensures Inv(setting, s')
  {
    hide Inv, Taken;
    var w := s.wave.value;
    if NextKey(w) !in KeysOf(s.disk.lines) {
      TakeJoins(setting, s, s');
    } else if NextKey(w) in w.seen {
      TakePasses(setting, s, s');
    } else {
      TakeReplays(setting, s, s');
    }
  }

  lemma TokensFrom(replies: seq<Reply>, i: nat)
    requires i < |replies|
    ensures TokensOf(replies[i..])
      == (if replies[i].Answer? then replies[i].tokens else 0) + TokensOf(replies[i + 1..])
  {
    assert replies[i..][1..] == replies[i + 1..];
  }

  lemma KeepsDispatch(setting: Setting, s: Sys, replies: seq<Reply>, s': Sys)
    requires Inv(setting, s) && Do(setting, s, Dispatch(replies)) == Some(s')
    ensures Inv(setting, s')
  {
    hide BreakerFired, Backed, OncePerKey, KeysOf, Items, Total, PendingOf, DistinctDecls;
    assert replies[0..] == replies;
  }

  lemma KeepsStop(setting: Setting, s: Sys, s': Sys)
    requires Inv(setting, s) && Do(setting, s, Stop) == Some(s')
    ensures Inv(setting, s')
  {
    hide BreakerFired, Backed, OncePerKey, KeysOf, Items, Total, PendingOf;
  }

  lemma PostedIsSaved(d: Disk, key: Key)
    requires forall item | item in Items(d.ledger) :: item in d.lines
    ensures key in KeysOf(Items(d.ledger)) ==> key in KeysOf(d.lines)
  {
    if key in KeysOf(Items(d.ledger)) {
      KeyIn(d.lines, ItemFor(Items(d.ledger), key));
    }
  }

  lemma KeepsSave(setting: Setting, s: Sys, s': Sys)
    requires Inv(setting, s) && Do(setting, s, Save) == Some(s')
    ensures Inv(setting, s')
  {
    hide BreakerFired, Backed, OncePerKey, KeysOf, Items, Total, PendingOf, DistinctDecls, TokensOf;
    var w := s.wave.value;
    var item := NextItem(w);
    TokensFrom(w.stage.replies, w.stage.done);
    Appended(s.disk.lines, item);
    PendingIs(setting.order, s.disk.settled);
    PostedIsSaved(s.disk, item.key);
    forall i | w.stage.done < i < |w.batch| ensures Key(w.batch[i], w.arm) != item.key {
      DistinctAt(w.batch, w.stage.done, i);
    }
  }

  lemma DistinctAt(decls: seq<Decl>, i: nat, j: nat)
    requires DistinctDecls(decls) && i < j < |decls|
    ensures decls[i] != decls[j]
  {
  }

  lemma PostTokens(setting: Setting, s: Sys, s': Sys)
    requires Inv(setting, s) && Do(setting, s, Post) == Some(s')
    ensures Accounted(s') && Undisturbed(s') && WithinGrant(setting, s')
  {
    hide RefusalFired, CostFired, Backed, OncePerKey, KeysOf, Items, Total, PendingOf, DistinctDecls, TokensOf, Count,
      Scanned, Covered;
    var w := s.wave.value;
    TokensFrom(w.stage.replies, w.stage.done);
    RowArrives(s.disk, NextItem(w));
  }

  lemma PostOnDisk(setting: Setting, s: Sys, s': Sys)
    requires Inv(setting, s) && Do(setting, s, Post) == Some(s')
    ensures DiskOk(setting, s'.disk)
    ensures s'.wave.value.seen == KeysOf(Items(s'.disk.ledger)) && Backed(s'.wave.value.settled, Items(s'.disk.ledger))
  {
    hide RefusalFired, CostFired, Backed, OncePerKey, KeysOf, Items, Total, PendingOf, DistinctDecls, TokensOf, Count,
      Accounted, Undisturbed, WithinGrant, Scanned, Covered;
    var w := s.wave.value;
    var item := NextItem(w);
    RowArrives(s.disk, item);
    BackedMore(w.settled, Items(s.disk.ledger), Items(s'.disk.ledger), item);
    BackedMore(s.disk.settled, Items(s.disk.ledger), Items(s'.disk.ledger), item);
  }

  lemma PostInMemory(setting: Setting, s: Sys, s': Sys)
    requires Inv(setting, s) && Do(setting, s, Post) == Some(s')
    ensures BatchOk(s'.disk, s'.wave.value) && Scanned(s'.disk, s'.wave.value) && Covered(s'.wave.value)
  {
    hide RefusalFired, CostFired, Backed, OncePerKey, KeysOf, Items, Total, PendingOf, DistinctDecls, TokensOf, Count,
      Accounted, Undisturbed, WithinGrant, DiskOk;
  }

  lemma KeepsPost(setting: Setting, s: Sys, s': Sys)
    requires Inv(setting, s) && Do(setting, s, Post) == Some(s')
    ensures Inv(setting, s')
  {
    hide RefusalFired, CostFired, Backed, OncePerKey, KeysOf, Items, Total, PendingOf, DistinctDecls, TokensOf, Count,
      Accounted, Undisturbed, WithinGrant, DiskOk, BatchOk, Scanned, Covered, NextItem;
    PostTokens(setting, s, s');
    PostOnDisk(setting, s, s');
    PostInMemory(setting, s, s');
  }

  lemma KeepsSkip(setting: Setting, s: Sys, s': Sys)
    requires Inv(setting, s) && Do(setting, s, Skip) == Some(s')
    ensures Inv(setting, s')
  {
    hide BreakerFired, Backed, OncePerKey, KeysOf, Items, Total, PendingOf, DistinctDecls, TokensOf;
    TokensFrom(s.wave.value.stage.replies, s.wave.value.stage.done);
  }

  lemma KeepsSettle(setting: Setting, s: Sys, s': Sys)
    requires Inv(setting, s) && Do(setting, s, Settle) == Some(s')
    ensures Inv(setting, s')
  {
    hide BreakerFired, Backed, OncePerKey, KeysOf, Items, Total, PendingOf;
  }

  lemma KeepsNotes(setting: Setting, s: Sys, a: Action, s': Sys)
    requires Inv(setting, s) && Do(setting, s, a) == Some(s') && (a.Remark? || a.CloseLedger?)
    ensures Inv(setting, s')
  {
    hide BreakerFired, Backed, OncePerKey, KeysOf, Items, Total, PendingOf, DistinctDecls, TokensOf, WaveCost;
    RowAppended(s.disk.ledger, s'.disk.ledger[|s.disk.ledger|]);
    assert Items(s.disk.ledger) + [] == Items(s.disk.ledger);
  }

  lemma KeepsEnd(setting: Setting, s: Sys, a: Action, s': Sys)
    requires Inv(setting, s) && Do(setting, s, a) == Some(s') && (a.CloseQueue? || a.Kill?)
    ensures Inv(setting, s')
  {
    hide BreakerFired, Backed, OncePerKey, KeysOf, Items, Total, PendingOf, DistinctDecls, TokensOf;
  }

  lemma Keeps(setting: Setting, s: Sys, a: Action, s': Sys)
    requires DistinctDecls(setting.order) && Inv(setting, s) && Do(setting, s, a) == Some(s')
    ensures Inv(setting, s')
  {
    hide Inv, Do;
    match a
    case Start(_, _, _, _) => KeepsStart(setting, s, a, s');
    case Take => KeepsTake(setting, s, s');
    case Dispatch(replies) => KeepsDispatch(setting, s, replies, s');
    case Stop => KeepsStop(setting, s, s');
    case Save => KeepsSave(setting, s, s');
    case Post => KeepsPost(setting, s, s');
    case Skip => KeepsSkip(setting, s, s');
    case Settle => KeepsSettle(setting, s, s');
    case Remark => KeepsNotes(setting, s, a, s');
    case CloseLedger => KeepsNotes(setting, s, a, s');
    case CloseQueue => KeepsEnd(setting, s, a, s');
    case Kill => KeepsEnd(setting, s, a, s');
  }

  lemma {:induction false} AllKeep(setting: Setting, s: Sys, actions: seq<Action>, s': Sys)
    requires DistinctDecls(setting.order) && Inv(setting, s) && Exec(setting, s, actions) == Some(s')
    ensures Inv(setting, s')
  {
    hide Inv, Do;
    if actions != [] {
      var n := |actions| - 1;
      var before := Exec(setting, s, actions[..n]).value;
      AllKeep(setting, s, actions[..n], before);
      Keeps(setting, before, actions[n], s');
    }
  }
}
