/** What holds of every run of import waves, however often they are killed. */
module ImportLedger {
  import opened ImportDriver
  import opened Wrappers

  /** The state `s` can be reached from an empty disk, by waves that may have been killed. */
  ghost predicate Reached(setting: Setting, actions: seq<Action>, s: Sys) {
    DistinctDecls(setting.order) && Exec(setting, NOTHING, actions) == Some(s)
  }

  lemma ReachedKeeps(setting: Setting, actions: seq<Action>, s: Sys)
    requires Reached(setting, actions, s)
    ensures Inv(setting, s)
  {
    hide Do, Inv;
    NothingKeeps(setting);
    AllKeep(setting, NOTHING, actions, s);
  }

  lemma NothingKeeps(setting: Setting)
    ensures Inv(setting, NOTHING)
  {
    hide DiskOk, Accounted, Undisturbed, WithinGrant, WaveOk;
    NothingOnDisk(setting);
    NothingOwed();
    NothingDisturbed();
    NothingSpent(setting);
  }

  lemma NothingOnDisk(setting: Setting)
    ensures DiskOk(setting, NOTHING.disk)
  {
  }

  lemma NothingOwed()
    ensures Accounted(NOTHING)
  {
  }

  lemma NothingDisturbed()
    ensures Undisturbed(NOTHING)
  {
  }

  lemma NothingSpent(setting: Setting)
    ensures WithinGrant(setting, NOTHING)
  {
  }

  // ---------------------------------------------------------------- exactly once

  function RowsFor(items: seq<Item>, key: Key): nat {
    if items == [] then 0
    else RowsFor(items[..|items| - 1], key) + if items[|items| - 1].key == key then 1 else 0
  }

  lemma {:induction false} OneRow(items: seq<Item>, key: Key)
    requires OncePerKey(items)
    ensures RowsFor(items, key) == if key in KeysOf(items) then 1 else 0
  {
    if items != [] {
      OneRow(items[..|items| - 1], key);
    }
  }

  ghost predicate EachPassedPosted(d: Disk, w: Wave) {
    && w.next <= |w.frontier| && (Limbo(w) ==> AtAnswer(w))
    && forall j | 0 <= j < w.next && Key(w.frontier[j], w.arm) in KeysOf(d.lines) ::
      RowsFor(Items(d.ledger), Key(w.frontier[j], w.arm))
      == if Limbo(w) && NextItem(w).key == Key(w.frontier[j], w.arm) then 0 else 1
  }

  /** EXACTLY ONCE. No (decl, arm) ever has two item rows in the ledger, and every item row repeats a
      checkpoint line. Once the scan of a wave has passed a declaration that has a checkpoint line for
      the wave's arm, it has its row, unless it is the one row being written right now. */
  lemma LedgerExactlyOnce(setting: Setting, actions: seq<Action>, s: Sys)
    requires Reached(setting, actions, s)
    ensures forall key :: RowsFor(Items(s.disk.ledger), key) <= 1
    ensures forall item | item in Items(s.disk.ledger) :: item in s.disk.lines
    ensures s.wave.Some? ==> EachPassedPosted(s.disk, s.wave.value)
  {
    hide Do, Exec, RowsFor, KeysOf;
    ReachedKeeps(setting, actions, s);
    forall key ensures RowsFor(Items(s.disk.ledger), key) == if key in KeysOf(Items(s.disk.ledger)) then 1 else 0 {
      OneRow(Items(s.disk.ledger), key);
    }
  }

  /** One step calls the author only for keys without a checkpoint line, and takes nothing back. */
  lemma StepAuthorsNew(setting: Setting, s: Sys, a: Action, s': Sys)
    requires Inv(setting, s) && Do(setting, s, a) == Some(s')
    ensures s.calls <= s'.calls && s.disk.lines <= s'.disk.lines
    ensures KeysOf(s.disk.lines) <= KeysOf(s'.disk.lines)
    ensures forall i | |s.calls| <= i < |s'.calls| :: s'.calls[i].key !in KeysOf(s.disk.lines)
  {
    hide KeysOf, Items, Opened, CheckGrant, Budget, TokensOf, Billed, RefusalFired, CostFired;
    if a.Save? && s.wave.Some? {
      Appended(s.disk.lines, NextItem(s.wave.value));
    }
  }

  /** NEVER AUTHORED AGAIN. Whatever happens behind a state, no author call is made for a (decl, arm)
      that has a checkpoint line in it. */
  lemma {:induction false} NeverAuthoredAgain(setting: Setting, actions: seq<Action>, s: Sys, more: seq<Action>, s': Sys)
    requires Reached(setting, actions, s) && Exec(setting, s, more) == Some(s')
    ensures s.calls <= s'.calls && KeysOf(s.disk.lines) <= KeysOf(s'.disk.lines)
    ensures forall i | |s.calls| <= i < |s'.calls| :: s'.calls[i].key !in KeysOf(s.disk.lines)
  {
    hide Do, Inv, KeysOf;
    if more != [] {
      var n := |more| - 1;
      var mid := Exec(setting, s, more[..n]).value;
      NeverAuthoredAgain(setting, actions, s, more[..n], mid);
      ReachedKeeps(setting, actions, s);
      AllKeep(setting, s, more[..n], mid);
      StepAuthorsNew(setting, mid, more[n], s');
      forall i | |s.calls| <= i < |s'.calls| ensures s'.calls[i].key !in KeysOf(s.disk.lines) {
        if i < |mid.calls| {
          assert s'.calls[i] == mid.calls[i];
        }
      }
    }
  }

  // ---------------------------------------------------------------- tokens

  /** Tokens of the lines whose key is not in `keys`. */
  function Missing(lines: seq<Item>, keys: set<Key>): nat {
    if lines == [] then 0
    else
      var line := lines[|lines| - 1];
      Missing(lines[..|lines| - 1], keys) + if line.key in keys then 0 else line.tokens
  }

  lemma {:induction false} MissingElsewhere(lines: seq<Item>, keys: set<Key>, key: Key)
    requires key !in KeysOf(lines)
    ensures Missing(lines, keys + {key}) == Missing(lines, keys)
  {
    if lines != [] {
      MissingElsewhere(lines[..|lines| - 1], keys, key);
    }
  }

  lemma {:induction false} MissingLess(lines: seq<Item>, keys: set<Key>, item: Item)
    requires OncePerKey(lines) && item in lines && item.key !in keys
    ensures Missing(lines, keys + {item.key}) + item.tokens == Missing(lines, keys)
  {
    var n := |lines| - 1;
    assert lines == lines[..n] + [lines[n]];
    if lines[n] == item {
      MissingElsewhere(lines[..n], keys, item.key);
    } else {
      KeyIn(lines[..n], item);
      MissingLess(lines[..n], keys, item);
    }
  }

  lemma {:induction false} MissingNone(lines: seq<Item>)
    ensures Missing(lines, {}) == Total(lines)
  {
    if lines != [] {
      MissingNone(lines[..|lines| - 1]);
    }
  }

  lemma {:induction false} TotalSplits(lines: seq<Item>, items: seq<Item>)
    requires OncePerKey(lines) && OncePerKey(items) && forall item | item in items :: item in lines
    ensures Total(lines) == Total(items) + Missing(lines, KeysOf(items))
  {
    if items == [] {
      MissingNone(lines);
    } else {
      var n := |items| - 1;
      assert items == items[..n] + [items[n]];
      TotalSplits(lines, items[..n]);
      MissingLess(lines, KeysOf(items[..n]), items[n]);
    }
  }

  /** CONSERVATION. Every token an author call has returned, in any number of waves and kills, is in
      exactly one place: in the ledger, in a checkpoint line whose row is still missing, in memory, or
      swallowed by a kill before it was checkpointed. Without kills, and between waves, the ledger has
      all of them. */
  lemma TokensConserved(setting: Setting, actions: seq<Action>, s: Sys)
    requires Reached(setting, actions, s)
    ensures s.paid == Spent(s.disk.ledger) + Missing(s.disk.lines, KeysOf(Items(s.disk.ledger)))
                      + InMemory(s.wave) + s.lost
    ensures s.kills == 0 && s.wave.None? ==> Spent(s.disk.ledger) == s.paid
  {
    hide Do, Exec, KeysOf, Items, Total, Missing, OncePerKey, InMemory;
    ReachedKeeps(setting, actions, s);
    TotalSplits(s.disk.lines, Items(s.disk.ledger));
    if s.kills == 0 && s.wave.None? {
      Idle(s);
    }
  }

  lemma Idle(s: Sys)
    requires s.wave.None?
    ensures InMemory(s.wave) == 0
  {
  }

  /** THE GRANT BOUND. Under a fixed grant the ledger total stays below the grant plus the cost of the
      batch dispatched last, plus what rows lost to kills have added late; without kills nothing has
      been added late. */
  lemma GrantBound(setting: Setting, actions: seq<Action>, s: Sys, grant: Grant)
    requires Reached(setting, actions, s) && setting.grant == Some(grant) && grant.mode == FixedTotal
    ensures s.calls != [] ==> Spent(s.disk.ledger) < grant.granted + s.lastBatch + s.replayed
    ensures s.calls == [] ==> Spent(s.disk.ledger) == 0
    ensures s.kills == 0 ==> s.replayed == 0 && s.lost == 0
  {
    hide Do, Exec, KeysOf, Items, Total, OncePerKey, InMemory, Outstanding;
    ReachedKeeps(setting, actions, s);
    if s.calls == [] {
      NoCallNoSpend(setting, actions, s);
    }
  }

  /** A SPENT GRANT STAYS CLOSED. Once the ledger total has reached a fixed grant, no continuation of the
      history changes anything, on whatever day and with whatever budget; and nothing less closes it:
      until then another wave with a budget can be opened. */
  lemma GrantDecides(setting: Setting, actions: seq<Action>, s: Sys, grant: Grant, start: Action)
    requires Reached(setting, actions, s) && s.wave.None?
    requires setting.grant == Some(grant) && grant.mode == FixedTotal
    requires start.Start? && start.asked > 0 && grant.expires.Some? && start.today <= grant.expires.value
    ensures Spent(s.disk.ledger) >= grant.granted ==> forall more, s' | Exec(setting, s, more) == Some(s') :: s' == s
    ensures Do(setting, s, start).Some? <==> Spent(s.disk.ledger) < grant.granted
  {
    hide Exec, KeysOf, Items, Total, Opened;
    GrantAllows(setting.grant, Spent(s.disk.ledger), start.today);
    if Spent(s.disk.ledger) >= grant.granted {
      forall more, s' | Exec(setting, s, more) == Some(s') ensures s' == s {
        NothingOpens(setting, s, grant, more);
      }
    }
  }

  lemma NothingPossible(setting: Setting, s: Sys, grant: Grant, a: Action)
    requires s.wave.None? && setting.grant == Some(grant) && grant.mode == FixedTotal
    requires Spent(s.disk.ledger) >= grant.granted
    ensures Do(setting, s, a).None?
  {
    hide KeysOf, Items, Total, Opened, Budget;
  }

  lemma {:induction false} NothingOpens(setting: Setting, s: Sys, grant: Grant, more: seq<Action>)
    requires s.wave.None? && setting.grant == Some(grant) && grant.mode == FixedTotal
    requires Spent(s.disk.ledger) >= grant.granted
    ensures Exec(setting, s, more) == if more == [] then Some(s) else None
  {
    hide Do, Spent;
    if more != [] {
      NothingOpens(setting, s, grant, more[..|more| - 1]);
      NothingPossible(setting, s, grant, more[|more| - 1]);
    }
  }

  lemma {:induction false} NoCallNoSpend(setting: Setting, actions: seq<Action>, s: Sys)
    requires Reached(setting, actions, s) && s.calls == []
    ensures Spent(s.disk.ledger) == 0
  {
    hide Do, KeysOf, Items, Total, OncePerKey, InMemory, Exec;
    ReachedKeeps(setting, actions, s);
    NothingPaid(setting, actions, s);
    TokensConserved(setting, actions, s);
  }

  lemma {:induction false} NothingPaid(setting: Setting, actions: seq<Action>, s: Sys)
    requires Exec(setting, NOTHING, actions) == Some(s) && s.calls == []
    ensures s.paid == 0
  {
    if actions != [] {
      var n := |actions| - 1;
      var before := Exec(setting, NOTHING, actions[..n]).value;
      PaidOnlyForCalls(setting, before, actions[n], s);
      NothingPaid(setting, actions[..n], before);
    }
  }

  lemma PaidOnlyForCalls(setting: Setting, s: Sys, a: Action, s': Sys)
    requires Do(setting, s, a) == Some(s') && s'.calls == []
    ensures s.calls == [] && s'.paid == s.paid
  {
    hide KeysOf, Items, Opened, CheckGrant, Budget, Billed, RefusalFired, CostFired;
    assert |s.calls| <= |s'.calls| && (|s.calls| == |s'.calls| ==> s'.paid == s.paid);
  }

  // ---------------------------------------------------------------- rows lost for good

  /** A checkpointed (decl, arm) without a row whose declaration the queue no longer offers. */
  ghost predicate Stranded(s: Sys, key: Key) {
    && key in KeysOf(s.disk.lines) && key !in KeysOf(Items(s.disk.ledger))
    && key.decl in s.disk.settled
  }

  lemma StaysStranded(setting: Setting, s: Sys, a: Action, s': Sys, key: Key)
    requires Inv(setting, s) && Stranded(s, key) && Do(setting, s, a) == Some(s')
    ensures Stranded(s', key)
  {
    hide KeysOf, Items, Opened, CheckGrant, Budget, TokensOf, RefusalFired, CostFired, BreakerFired, Total,
      PendingOf, Backed, WaveCost, OncePerKey, DistinctDecls, InMemory;
    if s.wave.Some? {
      var w := s.wave.value;
      PendingIs(setting.order, s.disk.settled);
      if a.Save? {
        Appended(s.disk.lines, NextItem(w));
      } else if s'.disk.ledger != s.disk.ledger {
        var row := s'.disk.ledger[|s.disk.ledger|];
        assert s'.disk.ledger == s.disk.ledger + [row];
        RowAppended(s.disk.ledger, row);
        assert Items(s.disk.ledger) + [] == Items(s.disk.ledger);
        if row.ItemRow? {
          assert row.item.key.decl in w.frontier;
          Appended(Items(s.disk.ledger), row.item);
        }
      }
    }
  }

  lemma {:induction false} StrandedForever(setting: Setting, actions: seq<Action>, s: Sys, key: Key,
                                           more: seq<Action>, s': Sys)
    requires Reached(setting, actions, s) && Stranded(s, key) && Exec(setting, s, more) == Some(s')
    ensures Stranded(s', key)
  {
    hide Do, Inv, Stranded;
    if more != [] {
      var n := |more| - 1;
      var mid := Exec(setting, s, more[..n]).value;
      StrandedForever(setting, actions, s, key, more[..n], mid);
      ReachedKeeps(setting, actions, s);
      AllKeep(setting, s, more[..n], mid);
      StaysStranded(setting, mid, more[n], s', key);
    }
  }

  /** At the end of its frontier a wave has a row for every checkpointed key of its arm whose declaration
      was pending. */
  lemma FullScanPosts(setting: Setting, actions: seq<Action>, s: Sys, key: Key)
    requires Reached(setting, actions, s) && s.wave.Some? && LoopOver(s.wave.value) && s.wave.value.halt.None?
    requires key in KeysOf(s.disk.lines) && key.arm == s.wave.value.arm
    ensures RowsFor(Items(s.disk.ledger), key) == (if Stranded(s, key) then 0 else 1)
    ensures key.decl !in s.disk.settled ==> RowsFor(Items(s.disk.ledger), key) == 1
  {
    hide Do, Exec, KeysOf, Items, OncePerKey, RowsFor;
    ReachedKeeps(setting, actions, s);
    OneRow(Items(s.disk.ledger), key);
    var w := s.wave.value;
    if key.decl !in s.disk.settled {
      PendingIs(setting.order, s.disk.settled);
      assert ItemFor(s.disk.lines, key) in s.disk.lines;
      var j :| 0 <= j < |w.frontier| && w.frontier[j] == key.decl;
      assert Key(w.frontier[j], w.arm) == key;
    }
  }

  // ---------------------------------------------------------------- what a wave does to missing rows

  /** Checkpointed, and no row in the ledger. */
  ghost predicate MissingRow(s: Sys, key: Key) {
    key in KeysOf(s.disk.lines) && key !in KeysOf(Items(s.disk.ledger))
  }

  /** The steps of one wave: it is not opened a second time. */
  ghost predicate OneWave(steps: seq<Action>) {
    forall i | 0 <= i < |steps| :: !steps[i].Start?
  }

  /** New keys are keys of this arm, for declarations that were pending when the wave began. */
  ghost predicate NewOnArm(before: set<Key>, after: set<Key>, arm: ArmName, settled: map<Decl, Outcome>) {
    before <= after && forall key | key in after && key !in before :: key.arm == arm && key.decl !in settled
  }

  /** How a wave in progress relates to the state it was opened in. */
  ghost predicate InWave(s0: Sys, arm: ArmName, s: Sys) {
    s.wave.Some? ==>
      && s.wave.value.arm == arm && s.disk.settled == s0.disk.settled
      && NewOnArm(KeysOf(s0.disk.lines), KeysOf(s.disk.lines), arm, s0.disk.settled)
      && NewOnArm(KeysOf(Items(s0.disk.ledger)), KeysOf(Items(s.disk.ledger)), arm, s0.disk.settled)
  }

  lemma InWaveStep(setting: Setting, s0: Sys, arm: ArmName, s: Sys, a: Action, s': Sys)
    requires Inv(setting, s) && InWave(s0, arm, s) && !a.Start? && Do(setting, s, a) == Some(s')
    ensures InWave(s0, arm, s')
  {
    hide KeysOf, Items, Opened, CheckGrant, Budget, TokensOf, RefusalFired, CostFired, BreakerFired, Total,
      PendingOf, Backed, WaveCost, OncePerKey, DistinctDecls, InMemory, Covered, Accounted, Undisturbed, WithinGrant;
    if s.wave.Some? {
      var w := s.wave.value;
      PendingIs(setting.order, s.disk.settled);
      if a.Save? {
        Appended(s.disk.lines, NextItem(w));
      } else if s'.disk.ledger != s.disk.ledger {
        var row := s'.disk.ledger[|s.disk.ledger|];
        assert s'.disk.ledger == s.disk.ledger + [row];
        RowAppended(s.disk.ledger, row);
        assert Items(s.disk.ledger) + [] == Items(s.disk.ledger);
        if row.ItemRow? {
          assert row.item.key.decl in w.frontier && row.item.key.arm == w.arm;
          Appended(Items(s.disk.ledger), row.item);
        }
      }
    }
  }

  lemma {:induction false} InWaveRun(setting: Setting, s0: Sys, arm: ArmName, s1: Sys, steps: seq<Action>, s: Sys)
    requires DistinctDecls(setting.order) && Inv(setting, s1) && InWave(s0, arm, s1) && OneWave(steps)
    requires Exec(setting, s1, steps) == Some(s)
    ensures InWave(s0, arm, s)
  {
    hide Do, Inv, InWave;
    if steps != [] {
      var n := |steps| - 1;
      var mid := Exec(setting, s1, steps[..n]).value;
      assert OneWave(steps[..n]);
      InWaveRun(setting, s0, arm, s1, steps[..n], mid);
      AllKeep(setting, s1, steps[..n], mid);
      InWaveStep(setting, s0, arm, mid, steps[n], s);
    }
  }

  /** A wave on `arm`, opened in `s0` and in progress in `s`. */
  ghost predicate Underway(setting: Setting, actions: seq<Action>, s0: Sys, start: Action, steps: seq<Action>, s: Sys) {
    && Reached(setting, actions, s0) && start.Start? && OneWave(steps) && s.wave.Some?
    && Do(setting, s0, start).Some? && Exec(setting, Do(setting, s0, start).value, steps) == Some(s)
  }

  lemma OpenedInWave(setting: Setting, s0: Sys, start: Action, s1: Sys)
    requires start.Start? && Do(setting, s0, start) == Some(s1)
    ensures InWave(s0, start.arm, s1)
  {
    hide KeysOf, Items, Total, CheckGrant, Budget, PendingOf, CostHistory;
  }

  lemma UnderwayKeeps(setting: Setting, actions: seq<Action>, s0: Sys, start: Action, steps: seq<Action>, s: Sys)
    requires Underway(setting, actions, s0, start, steps, s)
    ensures Inv(setting, s0) && Inv(setting, s) && InWave(s0, start.arm, s)
  {
    hide Do, Inv, InWave, OneWave;
    ReachedKeeps(setting, actions, s0);
    var s1 := Do(setting, s0, start).value;
    Keeps(setting, s0, start, s1);
    OpenedInWave(setting, s0, start, s1);
    AllKeep(setting, s1, steps, s);
    InWaveRun(setting, s0, start.arm, s1, steps, s);
  }

  /** What the wave has spent and has yet to record is what has been paid since it was opened. */
  predicate SpentSoFar(s: Sys, paid: nat) {
    s.wave.Some? ==> s.paid == paid + s.wave.value.spent + Outstanding(s.wave)
  }

  lemma SpentStep(setting: Setting, s: Sys, a: Action, s': Sys, paid: nat)
    requires Inv(setting, s) && SpentSoFar(s, paid) && s.wave.Some? && !a.Start? && Do(setting, s, a) == Some(s')
    ensures SpentSoFar(s', paid)
  {
    hide KeysOf, Items, Total, RefusalFired, CostFired, BreakerFired, WaveCost, PendingOf, Backed, Scanned, Covered,
      Accounted, WithinGrant, DiskOk, DistinctDecls;
    if s'.wave.Some? && s.wave.value.stage.Recording? && (a.Post? || a.Skip?) {
      var replies, done := s.wave.value.stage.replies, s.wave.value.stage.done;
      assert replies[done..][0] == replies[done] && replies[done..][1..] == replies[done + 1..];
    }
    if a.Dispatch? {
      assert a.replies[0..] == a.replies;
    }
    if a.Settle? {
      var replies := s.wave.value.stage.replies;
      assert replies[|replies|..] == [];
    }
  }

  lemma {:induction false} SpentRun(setting: Setting, s1: Sys, steps: seq<Action>, s: Sys, paid: nat)
    requires DistinctDecls(setting.order) && Inv(setting, s1) && SpentSoFar(s1, paid) && OneWave(steps)
    requires Exec(setting, s1, steps) == Some(s) && s.wave.Some? && s1.wave.Some?
    ensures SpentSoFar(s, paid)
  {
    hide Do, Inv, SpentSoFar;
    if steps != [] {
      var n := |steps| - 1;
      var mid := Exec(setting, s1, steps[..n]).value;
      assert OneWave(steps[..n]);
      StaysOpen(setting, mid, steps[n], s);
      SpentRun(setting, s1, steps[..n], mid, paid);
      AllKeep(setting, s1, steps[..n], mid);
      SpentStep(setting, mid, steps[n], s, paid);
    }
  }

  lemma StaysOpen(setting: Setting, s: Sys, a: Action, s': Sys)
    requires Do(setting, s, a) == Some(s') && s'.wave.Some? && !a.Start?
    ensures s.wave.Some?
  {
    hide KeysOf, Items, Total, CheckGrant, Budget;
  }

  /** EVERY TOKEN OF A WAVE is spent by it: what has been paid since the opening is what the wave has billed,
      and the answers it has not got to yet. */
  lemma WaveSpends(setting: Setting, actions: seq<Action>, s0: Sys, start: Action, steps: seq<Action>, s: Sys)
    requires Underway(setting, actions, s0, start, steps, s)
    ensures s.paid == s0.paid + s.wave.value.spent + Outstanding(s.wave)
    ensures s.wave.value.stage.Closing? || LoopOver(s.wave.value) ==> s.paid == s0.paid + s.wave.value.spent
  {
    hide Do, Exec, Inv, OneWave, DistinctDecls, SpentSoFar;
    ReachedKeeps(setting, actions, s0);
    var s1 := Do(setting, s0, start).value;
    OpensUnspent(setting, s0, start, s1);
    Keeps(setting, s0, start, s1);
    SpentRun(setting, s1, steps, s, s0.paid);
    SpentIs(s, s0.paid);
  }

  lemma SpentIs(s: Sys, paid: nat)
    requires SpentSoFar(s, paid) && s.wave.Some?
    ensures s.paid == paid + s.wave.value.spent + Outstanding(s.wave)
    ensures !s.wave.value.stage.Recording? ==> Outstanding(s.wave) == 0
  {
  }

  lemma OpensUnspent(setting: Setting, s0: Sys, start: Action, s1: Sys)
    requires start.Start? && Do(setting, s0, start) == Some(s1)
    ensures SpentSoFar(s1, s0.paid) && s1.wave.Some?
  {
    hide KeysOf, Items, Total, CheckGrant, Budget, PendingOf, CostHistory;
  }

  /** While a wave runs, and so also when it is killed, exactly the rows stranded before are stranded. */
  lemma RunningStrandsNothing(setting: Setting, actions: seq<Action>, s0: Sys, start: Action, steps: seq<Action>,
                              s: Sys, key: Key)
    requires Underway(setting, actions, s0, start, steps, s)
    ensures Stranded(s, key) <==> Stranded(s0, key)
  {
    hide Do, Exec, Inv, KeysOf, Items;
    UnderwayKeeps(setting, actions, s0, start, steps, s);
  }

  /** WHAT A COMPLETED WAVE STRANDS. The queue rewrite at its end strands exactly the missing rows whose
      declarations are settled then and either were settled before or belong to another arm. */
  lemma WaveStrands(setting: Setting, actions: seq<Action>, s0: Sys, start: Action, steps: seq<Action>, s: Sys, s': Sys,
                    key: Key)
    requires Underway(setting, actions, s0, start, steps, s) && Do(setting, s, CloseQueue) == Some(s')
    ensures Stranded(s', key)
      <==> MissingRow(s0, key) && key.decl in s'.disk.settled && (key.decl in s0.disk.settled || key.arm != start.arm)
  {
    hide Exec, KeysOf, Items, BatchOk, Covered, Backed, PendingOf, OncePerKey;
    UnderwayKeeps(setting, actions, s0, start, steps, s);
  }

  /** WHEN A LOST ROW COMES BACK. A row that is missing when a wave is opened is in the ledger when the
      wave ends with an exhausted frontier if and only if the wave is on its arm and its declaration was
      pending at the opening. Otherwise it is stranded, and stays missing in every run. */
  lemma LostRowComesBack(setting: Setting, actions: seq<Action>, s0: Sys, start: Action, steps: seq<Action>, s: Sys,
                         s': Sys, key: Key)
    requires Underway(setting, actions, s0, start, steps, s) && s.wave.value.halt == Some(FrontierEmpty)
    requires Do(setting, s, CloseQueue) == Some(s') && MissingRow(s0, key)
    ensures RowsFor(Items(s'.disk.ledger), key)
      == if key.arm == start.arm && key.decl !in s0.disk.settled then 1 else 0
    ensures !(key.arm == start.arm && key.decl !in s0.disk.settled) ==> Stranded(s', key)
  {
    WaveStrands(setting, actions, s0, start, steps, s, s', key);
    AllSettledThen(setting, actions, s0, start, steps, s, s', key);
    hide Exec, Do, KeysOf, Items, Underway;
  }

  lemma AllSettledThen(setting: Setting, actions: seq<Action>, s0: Sys, start: Action, steps: seq<Action>, s: Sys,
                       s': Sys, key: Key)
    requires Underway(setting, actions, s0, start, steps, s) && s.wave.value.halt == Some(FrontierEmpty)
    requires Do(setting, s, CloseQueue) == Some(s') && MissingRow(s0, key)
    ensures key.decl in s'.disk.settled && key in KeysOf(s'.disk.lines)
    ensures RowsFor(Items(s'.disk.ledger), key) == if key in KeysOf(Items(s'.disk.ledger)) then 1 else 0
  {
    hide Exec, KeysOf, Items, BatchOk, Scanned, Backed, OncePerKey, PendingOf;
    UnderwayKeeps(setting, actions, s0, start, steps, s);
    OneRow(Items(s'.disk.ledger), key);
    assert ItemFor(s0.disk.lines, key) in s0.disk.lines;
    PendingIs(setting.order, s.disk.settled);
  }

  ghost predicate OnlyArm(actions: seq<Action>, arm: ArmName) {
    forall i | 0 <= i < |actions| && actions[i].Start? :: actions[i].arm == arm
  }

  ghost predicate KeysOnArm(s: Sys, arm: ArmName) {
    (forall item | item in s.disk.lines :: item.key.arm == arm) && (s.wave.Some? ==> s.wave.value.arm == arm)
  }

  lemma {:induction false} OnOneArm(setting: Setting, actions: seq<Action>, s: Sys, arm: ArmName)
    requires Exec(setting, NOTHING, actions) == Some(s) && OnlyArm(actions, arm)
    ensures KeysOnArm(s, arm)
  {
    if actions != [] {
      hide Do;
      var n := |actions| - 1;
      var before := Exec(setting, NOTHING, actions[..n]).value;
      OnOneArm(setting, actions[..n], before, arm);
      StaysOnArm(setting, before, actions[n], s, arm);
    }
  }

  lemma StaysOnArm(setting: Setting, s: Sys, a: Action, s': Sys, arm: ArmName)
    requires Do(setting, s, a) == Some(s') && KeysOnArm(s, arm) && (a.Start? ==> a.arm == arm)
    ensures KeysOnArm(s', arm)
  {
    hide KeysOf, Items, CheckGrant, Budget, TokensOf, RefusalFired, CostFired, WaveCost;
  }

  /** As long as all waves are run on one arm, no row is ever lost for good. */
  lemma OneArmStrandsNothing(setting: Setting, actions: seq<Action>, s: Sys, arm: ArmName, key: Key)
    requires Reached(setting, actions, s) && OnlyArm(actions, arm)
    ensures !Stranded(s, key)
  {
    hide Do, Exec, KeysOf, Items, OncePerKey, OnlyArm;
    ReachedKeeps(setting, actions, s);
    OnOneArm(setting, actions, s, arm);
    if key in KeysOf(s.disk.lines) && key.decl in s.disk.settled {
      assert ItemFor(s.disk.lines, key) in s.disk.lines;
      var item :| item in Items(s.disk.ledger) && item.key.decl == key.decl && item.outcome == s.disk.settled[key.decl];
      KeyIn(Items(s.disk.ledger), item);
      assert item.key == key;
    }
  }

  // ---------------------------------------------------------------- batches

  /** At least one call at a time, and never more than the wave allows. */
  predicate WithinWidth(s: Sys) {
    s.wave.Some? ==> 0 < s.wave.value.width && |s.wave.value.batch| <= s.wave.value.width
  }

  lemma StaysWithinWidth(setting: Setting, s: Sys, a: Action, s': Sys)
    requires WithinWidth(s) && Do(setting, s, a) == Some(s')
    ensures WithinWidth(s')
  {
    hide KeysOf, Items, Total, CheckGrant, Budget, PendingOf, CostHistory, RefusalFired, CostFired, TokensOf, WaveCost;
  }

  lemma {:induction false} ReachedWithinWidth(setting: Setting, actions: seq<Action>, s: Sys)
    requires Exec(setting, NOTHING, actions) == Some(s)
    ensures WithinWidth(s)
  {
    hide Do;
    if actions != [] {
      var n := |actions| - 1;
      var before := Exec(setting, NOTHING, actions[..n]).value;
      ReachedWithinWidth(setting, actions[..n], before);
      StaysWithinWidth(setting, before, actions[n], s);
    }
  }

  /** BATCHES ARE FULL: every batch that goes to the author holds as many declarations as the wave allows, or
      the last ones of its frontier. */
  lemma BatchesAreFull(setting: Setting, actions: seq<Action>, s: Sys, replies: seq<Reply>, s': Sys)
    requires Reached(setting, actions, s) && Do(setting, s, Dispatch(replies)) == Some(s')
    ensures s.wave.Some? && |replies| == |s.wave.value.batch|
    ensures var w := s.wave.value;
      && 0 < |w.batch| <= w.width && (|w.batch| < w.width ==> w.next == |w.frontier|)
      && |s'.calls| == |s.calls| + |replies| && s.calls <= s'.calls
      && forall k | 0 <= k < |replies| :: s'.calls[|s.calls| + k] == Call(Key(w.batch[k], w.arm), replies[k])
  {
    hide Exec, TokensOf;
    ReachedWithinWidth(setting, actions, s);
  }

  /** A step of the wave itself, not of what happens around it. */
  predicate Advances(a: Action) {
    !a.Start? && !a.Kill? && !a.Remark?
  }

  /** What a wave can do next, with quota signals for replies. */
  function NextStep(w: Wave): Action {
    match w.stage
    case Closing => CloseQueue
    case Recording(replies, done, saved) =>
      if done >= |replies| then Settle else if replies[done].Quota? then Skip else if saved then Post else Save
    case Collecting =>
      if w.halt.Some? || (w.next == |w.frontier| && w.batch == []) then CloseLedger
      else if w.next < |w.frontier| && |w.batch| < w.width then Take
      else if w.spent >= w.budget then Stop
      else Dispatch(seq(|w.batch|, _ => Quota))
  }

  lemma CollectingGoesOn(setting: Setting, s: Sys)
    requires WithinWidth(s) && s.wave.Some? && !s.wave.value.stage.Recording? && s.wave.value.next <= |s.wave.value.frontier|
    ensures Do(setting, s, NextStep(s.wave.value)).Some?
  {
    hide KeysOf, Items, Taken, TokensOf, WaveCost, CallsFor;
  }

  lemma RecordingGoesOn(setting: Setting, s: Sys)
    requires s.wave.Some? && s.wave.value.stage.Recording?
    requires |s.wave.value.stage.replies| == |s.wave.value.batch| && s.wave.value.stage.done <= |s.wave.value.batch|
    ensures Do(setting, s, NextStep(s.wave.value)).Some?
  {
    hide KeysOf, Items, Billed;
  }

  /** NEVER STUCK: a wave in progress can always go on, until it has rewritten the queue. */
  lemma NeverStuck(setting: Setting, actions: seq<Action>, s: Sys)
    requires Reached(setting, actions, s) && s.wave.Some?
    ensures exists a :: Advances(a) && Do(setting, s, a).Some?
  {
    hide *;
    ReachedWithin(setting, actions, s);
    Shape(setting, s);
    if s.wave.value.stage.Recording? {
      RecordingGoesOn(setting, s);
    } else {
      CollectingGoesOn(setting, s);
    }
    NextAdvances(s.wave.value);
  }

  lemma NextAdvances(w: Wave)
    ensures Advances(NextStep(w))
  {
  }

  lemma ReachedWithin(setting: Setting, actions: seq<Action>, s: Sys)
    requires Reached(setting, actions, s)
    ensures Inv(setting, s) && WithinWidth(s)
  {
    hide Exec, Inv, WithinWidth;
    ReachedKeeps(setting, actions, s);
    ReachedWithinWidth(setting, actions, s);
  }

  lemma Shape(setting: Setting, s: Sys)
    requires Inv(setting, s) && s.wave.Some?
    ensures s.wave.value.next <= |s.wave.value.frontier|
    ensures s.wave.value.stage.Recording? ==>
      |s.wave.value.stage.replies| == |s.wave.value.batch| && s.wave.value.stage.done <= |s.wave.value.batch|
  {
    hide KeysOf, Items, Scanned, Covered, Backed, DiskOk, Accounted, WithinGrant, PendingOf, BreakerFired, DistinctDecls;
  }

  // ---------------------------------------------------------------- dispatching

  /** Breakers and budget are up to date whenever a batch is dispatched: none is once the budget is spent,
      more than twelve of the last twenty outcomes are refusals, or five outcomes have cost more than three
      times the median for each certified one. */
  lemma DispatchGuarded(setting: Setting, actions: seq<Action>, s: Sys, replies: seq<Reply>, s': Sys)
    requires Reached(setting, actions, s) && Do(setting, s, Dispatch(replies)) == Some(s')
    ensures var w := s.wave.value;
      && w.spent < w.budget && !BreakerFired(w.outcomes, w.spent, w.costs)
      && (|w.outcomes| >= 20 ==> Count(w.outcomes[|w.outcomes| - 20..], Refused) <= 12)
      && (w.costs != [] && |w.outcomes| >= 5 ==>
            w.spent as real <= 3.0 * Count(w.outcomes, Certified) as real * Median(w.costs))
  {
    hide Exec, Inv, Count, CostFired, Median;
    ReachedKeeps(setting, actions, s);
    NotFiredNow(setting, s);
    var w := s.wave.value;
    RefusalThreshold(w.outcomes);
    CostThreshold(w.spent, Count(w.outcomes, Certified), w.costs, |w.outcomes|);
  }

  lemma NotFiredNow(setting: Setting, s: Sys)
    requires Inv(setting, s) && s.wave.Some? && s.wave.value.halt.None?
    ensures !BreakerFired(s.wave.value.outcomes, s.wave.value.spent, s.wave.value.costs)
  {
    hide BreakerFired, DiskOk, BatchOk, Scanned, Covered, Backed;
  }

  // ---------------------------------------------------------------- a row lost for good

  lemma Then(setting: Setting, actions: seq<Action>, s: Sys, a: Action, s': Sys)
    requires Exec(setting, NOTHING, actions) == Some(s) && Do(setting, s, a) == Some(s')
    ensures Exec(setting, NOTHING, actions + [a]) == Some(s')
  {
    hide Do;
    assert (actions + [a])[..|actions|] == actions;
  }

  const LONE: Decl := Decl("d")
  const WEEKLY: Setting := Setting(Some(Grant(WeeklyQuota, 0, None, Some(0))), [LONE])
  const PAID: Item := Item(Key(LONE, Governed), Certified, 5)
  const AGAIN: Item := Item(Key(LONE, Ungoverned), Certified, 5)

  /** The governed wave that is killed between its checkpoint line and the ledger row. */
  lemma KilledWave() returns (actions: seq<Action>, s: Sys)
    ensures Reached(WEEKLY, actions, s) && s.wave.None? && s.disk == Disk([PAID], [], map[])
  {
    hide Do;
    assert Exec(WEEKLY, NOTHING, []) == Some(NOTHING);
    hide Exec;
    actions, s := OpenWave([], NOTHING, Governed);
    actions, s := AuthorLone(actions, s);
    actions, s := KillNow(actions, s);
  }

  lemma KillNow(before: seq<Action>, s0: Sys) returns (actions: seq<Action>, s: Sys)
    requires Exec(WEEKLY, NOTHING, before) == Some(s0) && s0.wave.Some?
    ensures Exec(WEEKLY, NOTHING, actions) == Some(s) && s.wave.None? && s.disk == s0.disk
  {
    hide Exec, InMemory;
    s := s0.(wave := None, lost := s0.lost + InMemory(s0.wave), kills := s0.kills + 1);
    Then(WEEKLY, before, s0, Kill, s);
    actions := before + [Kill];
  }

  lemma OpenWave(before: seq<Action>, s0: Sys, arm: ArmName) returns (actions: seq<Action>, s: Sys)
    requires Exec(WEEKLY, NOTHING, before) == Some(s0) && s0.wave.None? && s0.disk.settled == map[]
    ensures Exec(WEEKLY, NOTHING, actions) == Some(s)
    ensures s == s0.(wave := Some(Opened(WEEKLY, s0.disk, arm, 1, 1)))
  {
    hide KeysOf, Exec, Spent;
    var a := Start(arm, 1, 1, 0);
    s := s0.(wave := Some(Opened(WEEKLY, s0.disk, arm, 1, 1)));
    Then(WEEKLY, before, s0, a, s);
    actions := before + [a];
  }

  /** Take, dispatch, save: the lone declaration is authored and checkpointed. */
  lemma AuthorLone(before: seq<Action>, s0: Sys) returns (actions: seq<Action>, s: Sys)
    requires Exec(WEEKLY, NOTHING, before) == Some(s0) && s0.wave.Some?
    requires s0.disk.settled == map[] && exists arm :: s0.wave.value == Opened(WEEKLY, s0.disk, arm, 1, 1)
    requires Key(LONE, s0.wave.value.arm) !in KeysOf(s0.disk.lines)
    ensures Exec(WEEKLY, NOTHING, actions) == Some(s)
    ensures s.disk == s0.disk.(lines := s0.disk.lines + [PAID.(key := Key(LONE, s0.wave.value.arm))])
    ensures s.wave == Some(s0.wave.value.(next := 1, batch := [LONE], stage := Recording([Answer(Certified, 5)], 0, true)))
  {
    hide KeysOf, Exec, CostHistory, Items;
    var w := s0.wave.value;
    var replies := [Answer(Certified, 5)];
    assert PendingOf([LONE], map[]) == [LONE];
    var s1 := Do(WEEKLY, s0, Take).value;
    Then(WEEKLY, before, s0, Take, s1);
    var s2 := Do(WEEKLY, s1, Dispatch(replies)).value;
    Then(WEEKLY, before + [Take], s1, Dispatch(replies), s2);
    s := Do(WEEKLY, s2, Save).value;
    Then(WEEKLY, before + [Take] + [Dispatch(replies)], s2, Save, s);
    actions := before + [Take] + [Dispatch(replies)] + [Save];
  }

  /** The row of the lone declaration, on the other arm. */
  lemma PostOtherArm(before: seq<Action>, s0: Sys) returns (actions: seq<Action>, s: Sys)
    requires Exec(WEEKLY, NOTHING, before) == Some(s0) && s0.disk == Disk([PAID, AGAIN], [], map[])
    requires s0.wave.Some? && s0.wave.value == Opened(WEEKLY, Disk([PAID], [], map[]), Ungoverned, 1, 1)
      .(next := 1, batch := [LONE], stage := Recording([Answer(Certified, 5)], 0, true))
    ensures Exec(WEEKLY, NOTHING, actions) == Some(s)
    ensures s.disk == s0.disk.(ledger := [ItemRow(AGAIN)])
    ensures s.wave.Some? && LoopOver(s.wave.value) && s.wave.value.settled == map[LONE := Certified]
  {
    hide KeysOf, Exec, WaveCost, Count, CheckGrant, Budget, Items, CostHistory;
    OneDeclaration();
    var s1 := Do(WEEKLY, s0, Post).value;
    Then(WEEKLY, before, s0, Post, s1);
    s := Do(WEEKLY, s1, Settle).value;
    Then(WEEKLY, before + [Post], s1, Settle, s);
    actions := before + [Post] + [Settle];
  }

  lemma EndOtherArm(before: seq<Action>, s0: Sys) returns (actions: seq<Action>, s: Sys)
    requires Exec(WEEKLY, NOTHING, before) == Some(s0) && s0.disk == Disk([PAID, AGAIN], [ItemRow(AGAIN)], map[])
    requires s0.wave.Some? && LoopOver(s0.wave.value) && s0.wave.value.settled == map[LONE := Certified]
    ensures Exec(WEEKLY, NOTHING, actions) == Some(s)
    ensures s.wave.None? && s.disk.lines == [PAID, AGAIN] && s.disk.settled == map[LONE := Certified]
    ensures Items(s.disk.ledger) == [AGAIN]
  {
    hide KeysOf, Exec, WaveCost, Items;
    var s1 := Do(WEEKLY, s0, CloseLedger).value;
    Then(WEEKLY, before, s0, CloseLedger, s1);
    s := Do(WEEKLY, s1, CloseQueue).value;
    Then(WEEKLY, before + [CloseLedger], s1, CloseQueue, s);
    actions := before + [CloseLedger] + [CloseQueue];
    OneItem(WaveRow(WaveCost(s0.wave.value)));
  }

  lemma OneItem(row: Row)
    requires row.WaveRow?
    ensures Items([ItemRow(AGAIN)] + [row]) == [AGAIN]
  {
    RowAppended([], ItemRow(AGAIN));
    RowAppended([ItemRow(AGAIN)], row);
  }

  lemma OneDeclaration()
    ensures PendingOf([LONE], map[]) == [LONE]
  {
    assert [LONE][..0] == [];
  }

  /** With two arms a row can be lost for good: a governed wave is killed between its checkpoint line and
      the ledger row, an ungoverned wave settles the declaration, and the governed row never appears
      although its tokens were paid. */
  lemma TwoArmsCanStrand() returns (actions: seq<Action>, s: Sys)
    ensures Reached(WEEKLY, actions, s) && s.wave.None? && Stranded(s, PAID.key)
    ensures s.paid == Spent(s.disk.ledger) + 5 + s.lost
    ensures forall more, s' | Exec(WEEKLY, s, more) == Some(s') :: RowsFor(Items(s'.disk.ledger), PAID.key) == 0
  {
    hide Do, Exec, Inv;
    actions, s := KilledWave();
    NoSecondLine();
    actions, s := OpenWave(actions, s, Ungoverned);
    actions, s := AuthorLone(actions, s);
    assert s.disk.lines == [PAID, AGAIN];
    actions, s := PostOtherArm(actions, s);
    actions, s := EndOtherArm(actions, s);
    LostLine(s);
    TokensConserved(WEEKLY, actions, s);
    forall more, s' | Exec(WEEKLY, s, more) == Some(s') ensures RowsFor(Items(s'.disk.ledger), PAID.key) == 0 {
      StrandedForever(WEEKLY, actions, s, PAID.key, more, s');
      StrandedHasNoRow(WEEKLY, actions, s, more, s');
    }
  }

  lemma NoSecondLine()
    ensures Key(LONE, Ungoverned) !in KeysOf([PAID])
  {
    assert [PAID][..0] == [];
  }

  lemma LostLine(s: Sys)
    requires s.disk.lines == [PAID, AGAIN] && s.disk.settled == map[LONE := Certified] && s.wave.None?
    requires Items(s.disk.ledger) == [AGAIN]
    ensures Stranded(s, PAID.key) && InMemory(s.wave) == 0
    ensures Missing(s.disk.lines, KeysOf(Items(s.disk.ledger))) == 5
  {
    assert [PAID, AGAIN][..1] == [PAID] && [PAID][..0] == [] && [AGAIN][..0] == [];
    assert KeysOf([AGAIN]) == {AGAIN.key};
    assert Missing([PAID], {AGAIN.key}) == 5;
  }

  lemma StrandedHasNoRow(setting: Setting, actions: seq<Action>, s: Sys, more: seq<Action>, s': Sys)
    requires Reached(setting, actions, s) && Exec(setting, s, more) == Some(s') && Stranded(s', PAID.key)
    ensures RowsFor(Items(s'.disk.ledger), PAID.key) == 0
  {
    hide Do, Exec;
    ReachedKeeps(setting, actions, s);
    AllKeep(setting, s, more, s');
    OneRow(Items(s'.disk.ledger), PAID.key);
  }
}
