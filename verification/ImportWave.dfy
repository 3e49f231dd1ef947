/** `run_wave` as a method on the files it writes, each durable write a step of the machine. */
module ImportWave {
  import opened ImportDriver
  import opened ImportLedger
  import opened Wrappers

  const MINE_EVERY_K_AUTHORED: nat := 8

  datatype Report = Declined(reason: string) | Completed(halt: Halt, spent: nat)

  /** Everything a wave keeps fixed. */
  predicate SameWave(w: Wave, w': Wave) {
    w'.arm == w.arm && w'.width == w.width && w'.budget == w.budget && w'.costs == w.costs && w'.frontier == w.frontier
  }

  predicate AskedRightly(call: Call, i: nat, arm: ArmName, author: (Decl, nat) -> Reply) {
    call.key.arm == arm && call.reply == author(call.key.decl, i)
  }

  /** The grant allows a wave and leaves it a budget. */
  predicate MayStart(grant: Option<Grant>, spent: int, asked: int, today: int) {
    CheckGrant(grant, spent, today).Allowed? && EffectiveBudget(grant, spent, asked, today) > 0
  }

  function EffectiveBudget(grant: Option<Grant>, spent: int, asked: int, today: int): int {
    var verdict := CheckGrant(grant, spent, today);
    if verdict.Denied? || grant.None? then 0 else Budget(asked, grant.value, verdict.remaining)
  }

  /** In front of the last step, the rewriting of the queue, the wave had halted for this reason and had
      spent so much. */
  ghost predicate EndedAs(setting: Setting, log: seq<Action>, halt: Halt, spent: nat) {
    log != [] && exists before ::
      Exec(setting, NOTHING, log[..|log| - 1]) == Some(before) && HaltedAs(before, halt, spent)
  }

  predicate HaltedAs(s: Sys, halt: Halt, spent: nat) {
    s.wave.Some? && s.wave.value.halt == Some(halt) && s.wave.value.spent == spent
  }

  lemma AtEnd(setting: Setting, log: seq<Action>, s: Sys)
    requires Reached(setting, log, s)
    ensures Exec(setting, NOTHING, log) == Some(s)
  {
  }

  /** Why a wave is declined: what is wrong with the grant, or that it leaves no budget. */
  function Reason(verdict: Verdict): string {
    if verdict.Denied? then verdict.reason else "no-budget"
  }

  class Driver {
    const setting: Setting
    var lines: seq<Item>               // the checkpoint file
    var ledger: seq<Row>               // the ledger file
    var settled: map<Decl, Outcome>    // the statuses in the queue file
    ghost var log: seq<Action>         // every step so far, of this process and of those before it
    ghost var now: Sys

    ghost predicate At(wave: Option<Wave>)
      reads this
    {
      Reached(setting, log, now) && now.disk == Disk(lines, ledger, settled) && now.wave == wave
    }

    /** A process starts from the files that earlier ones, finished or killed, have left. */
    constructor (setting: Setting, disk: Disk, ghost log: seq<Action>, ghost now: Sys)
      requires Reached(setting, log, now) && now.disk == disk && now.wave.None?
      ensures At(None) && this.setting == setting && this.log == log && this.now == now
    {
      this.setting, lines, ledger, settled := setting, disk.lines, disk.ledger, disk.settled;
      this.log, this.now := log, now;
    }

    /** The calls behind the first `base` went to the author, each once, in this order. */
    ghost predicate AskedFrom(base: nat, arm: ArmName, author: (Decl, nat) -> Reply)
      reads this
    {
      base <= |now.calls| && forall i | base <= i < |now.calls| :: AskedRightly(now.calls[i], i - base, arm, author)
    }

    ghost method Happens(a: Action)
      requires Reached(setting, log, now) && Do(setting, now, a).Some?
      modifies this`log, this`now
      ensures log == old(log) + [a] && now == Do(setting, old(now), a).value
      ensures Reached(setting, log, now)
    {
      assert (log + [a])[..|log|] == log;
      log, now := log + [a], Do(setting, now, a).value;
    }

    /** Collect the next batch; checkpointed declarations are replayed on the way. */
    method FillBatch(w0: Wave) returns (w: Wave)
      requires At(Some(w0)) && w0.stage.Collecting? && w0.halt.None? && w0.batch == []
      requires w0.next < |w0.frontier| && w0.width > 0
      modifies this`ledger, this`log, this`now
      ensures At(Some(w)) && old(log) <= log && now.kills == old(now.kills) && now.calls == old(now.calls)
      ensures SameWave(w0, w) && w.stage.Collecting? && w.halt.None?
      ensures w0.next < w.next <= |w.frontier| && (|w.batch| == w.width || w.next == |w.frontier|)
    {
      hide Reached, KeysOf;
      w := w0;
      while w.next < |w.frontier| && |w.batch| < w.width
        invariant At(Some(w)) && old(log) <= log && now.kills == old(now.kills) && now.calls == old(now.calls)
        invariant SameWave(w0, w) && w.stage.Collecting? && w.halt.None?
        invariant w0.next <= w.next <= |w.frontier| && |w.batch| <= w.width
        invariant w.next == w0.next ==> w.batch == []
        decreases |w.frontier| - w.next
      {
        var key := Key(w.frontier[w.next], w.arm);
        if key in KeysOf(lines) {
          var item := ItemFor(lines, key);
          w := w.(next := w.next + 1, settled := w.settled[key.decl := item.outcome]);
          if key !in w.seen {
            ledger := ledger + [ItemRow(item)];
            w := w.(seen := w.seen + {key});
          }
        } else {
          w := w.(next := w.next + 1, batch := w.batch + [key.decl]);
        }
        Happens(Take);
      }
    }

    /** Checkpoint first, ledger second, then the bill and the breakers. */
    method RecordAnswer(w0: Wave) returns (w: Wave)
      requires At(Some(w0)) && AtAnswer(w0) && !w0.stage.saved
      modifies this`lines, this`ledger, this`log, this`now
      ensures At(Some(w)) && old(log) <= log && now.kills == old(now.kills) && now.calls == old(now.calls)
      ensures SameWave(w0, w) && w.next == w0.next && w.batch == w0.batch
      ensures w.stage == Recording(w0.stage.replies, w0.stage.done + 1, false)
    {
      hide Reached, Count, RefusalFired, CostFired;
      var reply := w0.stage.replies[w0.stage.done];
      var item := Item(Key(w0.batch[w0.stage.done], w0.arm), reply.outcome, reply.tokens);
      lines := lines + [item];
      w := w0.(stage := Recording(w0.stage.replies, w0.stage.done, true));
      Happens(Save);
      ledger := ledger + [ItemRow(item)];
      w := w.(seen := w.seen + {item.key}, outcomes := w.outcomes + [item.outcome], spent := w.spent + item.tokens,
              settled := w.settled[item.key.decl := item.outcome],
              stage := Recording(w0.stage.replies, w0.stage.done + 1, false));
      if w.halt.None? {
        if RefusalFired(w.outcomes) {
          w := w.(halt := Some(RefusalBreaker));
        } else if CostFired(w.spent, Count(w.outcomes, Certified), w.costs, |w.outcomes|) {
          w := w.(halt := Some(CostBreaker));
        }
      }
      Happens(Post);
    }

    /** Mining appends rows to the ledger, but no item rows. */
    method Mine(w: Wave, rows: nat)
      requires At(Some(w)) && !w.stage.Closing? && !Limbo(w)
      modifies this`ledger, this`log, this`now
      ensures At(Some(w)) && old(log) <= log && now.kills == old(now.kills) && now.calls == old(now.calls)
    {
      hide Reached;
      for i := 0 to rows
        invariant At(Some(w)) && old(log) <= log && now.kills == old(now.kills) && now.calls == old(now.calls)
      {
        ledger := ledger + [Note];
        Happens(Remark);
      }
    }

    /** The replies of a batch, in frontier order. Completed calls are recorded whatever has halted the
        wave; the quota signal takes effect behind the batch. */
    method RecordBatch(w0: Wave, replies: seq<Reply>, sinceMine: nat, mined: nat -> nat) returns (w: Wave, since: nat)
      requires At(Some(w0)) && BatchFull(w0) && w0.spent < w0.budget && |replies| == |w0.batch|
      modifies this`lines, this`ledger, this`log, this`now
      ensures At(Some(w)) && old(log) <= log && now.kills == old(now.kills)
      ensures now.calls == old(now.calls) + CallsFor(w0.batch, w0.arm, replies)
      ensures SameWave(w0, w) && w.next == w0.next && w.batch == [] && w.stage.Collecting?
    {
      hide Reached, Count, RefusalFired, CostFired;
      w, since := w0.(stage := Recording(replies, 0, false), quota := false), sinceMine;
      Happens(Dispatch(replies));
      for i := 0 to |replies|
        invariant At(Some(w)) && old(log) <= log && now.kills == old(now.kills)
        invariant now.calls == old(now.calls) + CallsFor(w0.batch, w0.arm, replies)
        invariant SameWave(w0, w) && w.next == w0.next && w.batch == w0.batch && w.stage == Recording(replies, i, false)
      {
        match replies[i]
        case Quota =>
          w := w.(quota := true, stage := Recording(replies, i + 1, false));
          Happens(Skip);
        case Answer(outcome, _) =>
          w := RecordAnswer(w);
          if outcome.Certified? {
            since := since + 1;
            if w.arm == Governed && since >= MINE_EVERY_K_AUTHORED {
              since := 0;
              Mine(w, mined(i));
            }
          }
      }
      w := w.(batch := [], stage := Collecting, halt := if w.quota && w.halt.None? then Some(QuotaExhausted) else w.halt);
      Happens(Settle);
    }

    /** The main loop of `run_wave`. */
    method Loop(w0: Wave, author: (Decl, nat) -> Reply, mined: nat -> nat) returns (w: Wave)
      requires At(Some(w0)) && w0.stage.Collecting? && w0.halt.None? && w0.batch == [] && w0.width > 0
      modifies this`lines, this`ledger, this`log, this`now
      ensures At(Some(w)) && old(log) <= log && now.kills == old(now.kills)
      ensures SameWave(w0, w) && LoopOver(w)
      ensures AskedFrom(|old(now.calls)|, w0.arm, author)
    {
      hide Reached;
      w := w0;
      var calls: nat, since: nat := 0, 0;
      Bounded(w);
      while w.next < |w.frontier| && w.halt.None?
        invariant At(Some(w)) && old(log) <= log && now.kills == old(now.kills)
        invariant SameWave(w0, w) && w.stage.Collecting? && w.batch == [] && w.next <= |w.frontier|
        invariant calls + |old(now.calls)| == |now.calls| && AskedFrom(|old(now.calls)|, w0.arm, author)
        decreases |w.frontier| - w.next
      {
        w := FillBatch(w);
        if w.batch != [] {
          if w.spent >= w.budget {
            w := w.(batch := [], halt := Some(BudgetExhausted));
            Happens(Stop);
          } else {
            var replies := CallAll(w, author, calls);
            calls := calls + |w.batch|;
            w, since := RecordBatch(w, replies, since, mined);
          }
        }
      }
    }

    lemma Bounded(w: Wave)
      requires At(Some(w))
      ensures w.next <= |w.frontier|
    {
      hide Do, Exec;
      ReachedKeeps(setting, log, now);
    }

    /** One author call per member of the batch. */
    static method CallAll(w: Wave, author: (Decl, nat) -> Reply, calls: nat) returns (replies: seq<Reply>)
      ensures replies == seq(|w.batch|, i requires 0 <= i < |w.batch| => author(w.batch[i], calls + i))
    {
      replies := [];
      for i := 0 to |w.batch|
        invariant |replies| == i && forall k | 0 <= k < i :: replies[k] == author(w.batch[k], calls + k)
      {
        replies := replies + [author(w.batch[i], calls + i)];
      }
    }

    /** Grant and budget, then the wave's memory. */
    method Begin(arm: ArmName, asked: int, concurrency: nat, today: int) returns (w: Option<Wave>, reason: string)
      requires At(None)
      modifies this`log, this`now
      ensures At(w) && (w.None? <==> !MayStart(setting.grant, Spent(ledger), asked, today))
      ensures w.None? ==> log == old(log) && now == old(now)
      ensures w.None? ==> reason == Reason(CheckGrant(setting.grant, Spent(ledger), today))
      ensures w.Some? ==>
        && log == old(log) + [Start(arm, asked, concurrency, today)]
        && now.kills == old(now.kills) && now.calls == old(now.calls)
        && w.value.arm == arm && w.value.budget == EffectiveBudget(setting.grant, Spent(ledger), asked, today)
        && w.value.width > 0 && w.value.batch == [] && w.value.stage.Collecting? && w.value.halt.None?
    {
      hide Reached, Budget, KeysOf, Items, CostHistory, PendingOf;
      var verdict := CheckGrant(setting.grant, Spent(ledger), today);
      if verdict.Denied? {
        return None, verdict.reason;
      }
      var budget := Budget(asked, setting.grant.value, verdict.remaining);
      if budget <= 0 {
        return None, "no-budget";
      }
      w, reason := Some(Opened(setting, Disk(lines, ledger, settled), arm, concurrency, budget)), "";
      Happens(Start(arm, asked, concurrency, today));
    }

    /** The wave row, then the queue. */
    method Finish(w: Wave) returns (halt: Halt)
      requires At(Some(w)) && LoopOver(w)
      modifies this`ledger, this`settled, this`log, this`now
      ensures At(None) && now.kills == old(now.kills) && now.calls == old(now.calls)
      ensures log == old(log) + [CloseLedger, CloseQueue]
      ensures ledger == old(ledger) + [WaveRow(WaveCost(w))] && settled == w.settled
      ensures halt == if w.halt.None? then FrontierEmpty else w.halt.value
      ensures EndedAs(setting, log, halt, w.spent)
    {
      hide Reached, WaveCost;
      ledger := ledger + [WaveRow(WaveCost(w))];
      halt := if w.halt.None? then FrontierEmpty else w.halt.value;
      Happens(CloseLedger);
      ghost var before, steps := now, log;
      assert Exec(setting, NOTHING, steps) == Some(before) by { AtEnd(setting, steps, before); }
      settled := w.settled;
      Happens(CloseQueue);
      assert log[..|log| - 1] == steps;
    }

    /** `run_wave`. All it does to the files are steps of the machine, from the opening of a wave to the
        rewritten queue and none of them a kill, with the author's own replies. When it reports an
        exhausted frontier, every declaration is settled and every checkpoint line of its arm for a
        declaration that was pending has exactly one ledger row. It declines exactly when the grant or
        the budget rule it out, and then changes nothing. */
    method RunWave(arm: ArmName, asked: int, concurrency: nat, today: int, author: (Decl, nat) -> Reply,
                   mined: nat -> nat) returns (report: Report)
      requires At(None)
      modifies this
      ensures At(None) && old(log) <= log && now.kills == old(now.kills)
      ensures report.Declined? <==> !MayStart(setting.grant, Spent(old(ledger)), asked, today)
      ensures report.Declined? ==> log == old(log) && now == old(now)
      ensures report.Declined? ==>
        report.reason == Reason(CheckGrant(setting.grant, Spent(old(ledger)), today))
      ensures report.Completed? ==>
        && |log| > |old(log)| + 1
        && log[|old(log)|] == Start(arm, asked, concurrency, today) && log[|log| - 1] == CloseQueue
      ensures AskedFrom(|old(now.calls)|, arm, author)
      ensures report.Completed? ==> EndedAs(setting, log, report.halt, report.spent)
      ensures report.Completed? && report.halt.BudgetExhausted? ==>
        report.spent >= EffectiveBudget(setting.grant, Spent(old(ledger)), asked, today)
      ensures report.Completed? && report.halt.FrontierEmpty? ==>
        && (forall d | d in setting.order :: d in settled)
        && forall key | key in KeysOf(lines) && key.arm == arm && key.decl !in old(settled) ::
          RowsFor(Items(ledger), key) == 1
    {
      hide Reached, EndedAs, CheckGrant, MayStart, EffectiveBudget, KeysOf, RowsFor, Items, WaveCost, Do;
      var begun, reason := Begin(arm, asked, concurrency, today);
      if begun.None? {
        return Declined(reason);
      }
      var w := Loop(begun.value, author, mined);
      if arm == Governed {
        Mine(w, mined(0));
      }
      EndOfScan(w);
      var halt := Finish(w);
      report := Completed(halt, w.spent);
    }

    lemma EndOfScan(w: Wave)
      requires At(Some(w)) && LoopOver(w)
      ensures w.halt.None? ==>
        && (forall d | d in setting.order :: d in w.settled)
        && forall key | key in KeysOf(lines) && key.arm == w.arm && key.decl !in settled ::
          RowsFor(Items(ledger + [WaveRow(WaveCost(w))]), key) == 1
      ensures w.halt != Some(FrontierEmpty) && (w.halt == Some(BudgetExhausted) ==> w.spent >= w.budget)
    {
      hide Do, Exec, RowsFor, KeysOf, Items, Stranded;
      ReachedKeeps(setting, log, now);
      RowAppended(ledger, WaveRow(WaveCost(w)));
      assert Items(ledger) + [] == Items(ledger);
      PendingIs(setting.order, settled);
      if w.halt.None? {
        forall key | key in KeysOf(lines) && key.arm == w.arm && key.decl !in settled
          ensures RowsFor(Items(ledger), key) == 1
        {
          FullScanPosts(setting, log, now, key);
        }
      }
    }
  }
}
