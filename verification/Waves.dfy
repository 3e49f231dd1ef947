/** One arm of the wave benchmark in `bench/bench_formalize.py`: checkpointed authoring against a
    frozen macro table, prequential pricing, greedy growth between waves. */
module Waves {
  import opened Templates
  import opened Rewriting
  import opened Expansion
  import opened Pricing
  import opened Growth
  import opened Wrappers

  const WAVE_SIZE: nat := 8

  datatype SourceId = SourceId(name: string)

  /** What authoring and certifying a source yields; `statements` when the answer parses. */
  datatype Authored = Authored(statements: Option<seq<Json>>, tokensIn: nat, tokensOut: nat, certified: bool)

  /** A checkpoint line. */
  datatype Rec = Rec(
    sourceId: SourceId, arm: string, wave: nat, frozenTable: Table,
    statements: Option<seq<Json>>, tokensIn: nat, tokensOut: nat, certified: bool)

  /** An arm and everything outside this model: the author (with the certifier) as a function of the
      source and the frozen table, the prompt size, the miner, the dream readings. */
  datatype Config = Config(
    arm: string, governed: bool, dreams: seq<Reading>,
    author: (SourceId, Table) -> Option<Authored>, promptBytes: (SourceId, Table) -> nat, mine: Miner)

  datatype Row = Row(
    wave: nat, tokensIn: nat, tokensOut: nat, promptBytes: seq<nat>,
    reportedDl: nat, prequentialDl: nat, certified: nat)

  /** The running state of `_run_arm`. */
  datatype Arm = Arm(
    table: Table, readings: seq<Reading>, tokensIn: nat, tokensOut: nat, promptBytes: seq<nat>,
    certified: nat, prequential: nat, rows: seq<Row>, waveTables: seq<Table>)

  const START: Arm := Arm(map[], [], 0, 0, [], 0, 0, [], [])

  /** The record a source gets in wave `wi`; an author failure is recorded too. */
  function RecordOf(c: Config, sid: SourceId, wi: nat, table: Table): Rec {
    match c.author(sid, table)
    case None => Rec(sid, c.arm, wi, table, None, 0, 0, false)
    case Some(a) => Rec(sid, c.arm, wi, table, a.statements, a.tokensIn, a.tokensOut, a.certified)
  }

  /** The serial tail, for one source. */
  function Absorb(c: Config, st: Arm, sid: SourceId, rec: Rec): Arm {
    st.(tokensIn := st.tokensIn + rec.tokensIn, tokensOut := st.tokensOut + rec.tokensOut,
        promptBytes := st.promptBytes + [c.promptBytes(sid, st.table)],
        certified := st.certified + if rec.statements.Some? && rec.certified then 1 else 0,
        readings := st.readings + if rec.statements.Some? then [Reading(rec.statements.value, "exogenous")] else [])
  }

  /** The tail over the first `n` sources of a wave, every one with its fresh record. */
  function AbsorbAll(c: Config, st: Arm, wave: seq<SourceId>, wi: nat, n: nat): (r: Arm)
    requires n <= |wave|
    ensures r.table == st.table && st.readings <= r.readings && r.prequential == st.prequential
    ensures r.rows == st.rows && r.waveTables == st.waveTables
  {
    if n == 0 then st
    else
      var before := AbsorbAll(c, st, wave, wi, n - 1);
      Absorb(c, before, wave[n - 1], RecordOf(c, wave[n - 1], wi, st.table))
  }

  ghost function ReportedDl(readings: seq<Reading>, table: Table): nat
    requires ValidTable(table)
  {
    if readings == [] then 0 else CorpusDl(readings, table)
  }

  function MiningCorpus(c: Config, readings: seq<Reading>): seq<Reading> {
    readings + if c.governed then [] else c.dreams
  }

  /** What follows the tail: charge the wave's new readings under the table they were authored with,
      grow the table, emit the row. */
  ghost function CloseWave(c: Config, st: Arm, before: nat, wi: nat): (r: Arm)
    requires ValidTable(st.table) && ProposesBodies(c.mine) && before <= |st.readings|
    ensures ValidTable(r.table) && r.readings == st.readings
  {
    var prequential := st.prequential + ReadingsDl(st.readings[before..], st.table);
    var table := Grown(st.table, MiningCorpus(c, st.readings), c.governed, c.mine);
    st.(table := table, prequential := prequential,
        rows := st.rows + [Row(wi, st.tokensIn, st.tokensOut, st.promptBytes,
                               ReportedDl(st.readings, table), prequential, st.certified)],
        waveTables := st.waveTables + [st.table])
  }

  function WaveCount(sources: seq<SourceId>): nat {
    (|sources| + WAVE_SIZE - 1) / WAVE_SIZE
  }

  /** The position of the first source of wave `w`. */
  function StartOf(w: nat): nat {
    WAVE_SIZE * w
  }

  function WaveOf(position: nat): nat {
    position / WAVE_SIZE
  }

  /** The sources of one wave: at most WAVE_SIZE from its first position on. */
  function WaveAt(sources: seq<SourceId>, w: nat): seq<SourceId>
    requires w < WaveCount(sources)
  {
    var hi := StartOf(w) + WAVE_SIZE;
    sources[StartOf(w)..if hi < |sources| then hi else |sources|]
  }

  /** The uninterrupted run, after `w` waves. */
  ghost function After(c: Config, sources: seq<SourceId>, w: nat): (st: Arm)
    requires ProposesBodies(c.mine) && w <= WaveCount(sources)
    ensures ValidTable(st.table)
  {
    if w == 0 then START
    else
      var st := After(c, sources, w - 1);
      var wave := WaveAt(sources, w - 1);
      CloseWave(c, AbsorbAll(c, st, wave, w - 1, |wave|), |st.readings|, w - 1)
  }

  // ---------------------------------------------------------------- the checkpoint

  /** `_Checkpoint.__init__`: the last line per key wins. */
  function Loaded(file: seq<Rec>): map<(SourceId, string), Rec> {
    if file == [] then map[]
    else
      var rec := file[|file| - 1];
      Loaded(file[..|file| - 1])[(rec.sourceId, rec.arm) := rec]
  }

  class Checkpoint {
    var records: map<(SourceId, string), Rec>
    var file: seq<Rec>                          // the lines on disk

    ghost predicate Valid()
      reads this
    {
      records == Loaded(file)
    }

    constructor (lines: seq<Rec>)
      ensures Valid() && file == lines
    {
      records, file := map[], [];
      new;
      for i := 0 to |lines|
        invariant file == lines[..i] && Valid()
      {
        assert lines[..i + 1][..i] == lines[..i];
        records := records[(lines[i].sourceId, lines[i].arm) := lines[i]];
        file := file + [lines[i]];
      }
      assert lines[..|lines|] == lines;
    }

    method Write(rec: Rec)
      requires Valid()
      modifies this
      ensures Valid() && file == old(file) + [rec]
      ensures records == old(records)[(rec.sourceId, rec.arm) := rec]
    {
      assert (file + [rec])[..|file|] == file;
      records := records[(rec.sourceId, rec.arm) := rec];
      file := file + [rec];
    }
  }

  ghost predicate Distinct(sources: seq<SourceId>) {
    forall i, j | 0 <= i < j < |sources| :: sources[i] != sources[j]
  }

  /** The line the uninterrupted run writes for the source at position `i`. */
  ghost function FreshLine(c: Config, sources: seq<SourceId>, i: nat): Rec
    requires ProposesBodies(c.mine) && i < |sources|
  {
    assert WaveOf(i) < WaveCount(sources);
    RecordOf(c, sources[i], WaveOf(i), After(c, sources, WaveOf(i)).table)
  }

  ghost predicate IsFresh(c: Config, sources: seq<SourceId>, rec: Rec)
    requires ProposesBodies(c.mine)
  {
    exists i: nat :: i < |sources| && rec == FreshLine(c, sources, i)
  }

  /** Every line of this arm is one the uninterrupted run writes too. The arms and the dreams share the
      file, so lines of other arms are anything. */
  ghost predicate AllFresh(c: Config, sources: seq<SourceId>, file: seq<Rec>)
    requires ProposesBodies(c.mine)
  {
    forall l | 0 <= l < |file| && file[l].arm == c.arm :: IsFresh(c, sources, file[l])
  }

  lemma {:induction false} LoadedFresh(c: Config, sources: seq<SourceId>, file: seq<Rec>, i: nat)
    requires ProposesBodies(c.mine) && Distinct(sources) && AllFresh(c, sources, file)
    requires i < |sources| && (sources[i], c.arm) in Loaded(file)
    ensures Loaded(file)[(sources[i], c.arm)] == FreshLine(c, sources, i)
  {
    hide After;
    var n := |file| - 1;
    if (file[n].sourceId, file[n].arm) != (sources[i], c.arm) {
      LoadedFresh(c, sources, file[..n], i);
    } else {
      assert IsFresh(c, sources, file[n]);
      var l: nat :| l < |sources| && file[n] == FreshLine(c, sources, l);
    }
  }

  // ---------------------------------------------------------------- the run

  /** The sources of a wave that have no record yet, authored against the frozen table. */
  method AuthorMissing(c: Config, wave: seq<SourceId>, frozen: Table, checkpoint: Checkpoint)
      returns (authored: map<SourceId, Option<Authored>>)
    ensures forall sid :: sid in authored <==> sid in wave && (sid, c.arm) !in checkpoint.records
    ensures forall sid | sid in authored :: authored[sid] == c.author(sid, frozen)
  {
    authored := map[];
    for i := 0 to |wave|
      invariant forall sid :: sid in authored <==> sid in wave[..i] && (sid, c.arm) !in checkpoint.records
      invariant forall sid | sid in authored :: authored[sid] == c.author(sid, frozen)
    {
      if (wave[i], c.arm) !in checkpoint.records {
        authored := authored[wave[i] := c.author(wave[i], frozen)];
      }
    }
    assert wave[..|wave|] == wave;
  }

  /** The record of one source: the checkpointed one, or a new one that is written first. */
  method Obtain(c: Config, sid: SourceId, wi: nat, frozen: Table, authored: map<SourceId, Option<Authored>>,
                checkpoint: Checkpoint)
      returns (rec: Rec)
    requires checkpoint.Valid()
    requires (sid, c.arm) !in checkpoint.records ==> sid in authored && authored[sid] == c.author(sid, frozen)
    modifies checkpoint
    ensures checkpoint.Valid() && (sid, c.arm) in checkpoint.records && rec == checkpoint.records[(sid, c.arm)]
    ensures if (sid, c.arm) in old(checkpoint.records) then
              checkpoint.file == old(checkpoint.file) && checkpoint.records == old(checkpoint.records)
            else
              checkpoint.file == old(checkpoint.file) + [RecordOf(c, sid, wi, frozen)]
              && checkpoint.records.Keys == old(checkpoint.records.Keys) + {(sid, c.arm)}
  {
    if (sid, c.arm) in checkpoint.records {
      rec := checkpoint.records[(sid, c.arm)];
    } else {
      rec := match authored[sid]
        case None => Rec(sid, c.arm, wi, frozen, None, 0, 0, false)
        case Some(a) => Rec(sid, c.arm, wi, frozen, a.statements, a.tokensIn, a.tokensOut, a.certified);
      checkpoint.Write(rec);
    }
  }

  lemma PositionOf(sources: seq<SourceId>, w: nat, n: nat)
    requires w < WaveCount(sources) && n < |WaveAt(sources, w)|
    ensures StartOf(w) + n < |sources| && WaveOf(StartOf(w) + n) == w
    ensures WaveAt(sources, w)[n] == sources[StartOf(w) + n]
  {
  }

  /** The lines for those of the first `n` sources that have no record, in order. */
  ghost function MissingLines(c: Config, sources: seq<SourceId>, n: nat, records: map<(SourceId, string), Rec>): seq<Rec>
    requires ProposesBodies(c.mine) && n <= |sources|
  {
    if n == 0 then []
    else
      MissingLines(c, sources, n - 1, records)
      + if (sources[n - 1], c.arm) in records then [] else [FreshLine(c, sources, n - 1)]
  }

  /** The keys of the first `n` sources. */
  ghost function KeysUpTo(c: Config, sources: seq<SourceId>, n: nat): set<(SourceId, string)>
    requires n <= |sources|
  {
    if n == 0 then {} else KeysUpTo(c, sources, n - 1) + {(sources[n - 1], c.arm)}
  }

  lemma {:induction false} NewKey(c: Config, sources: seq<SourceId>, n: nat, p: nat)
    requires Distinct(sources) && n <= p < |sources|
    ensures (sources[p], c.arm) !in KeysUpTo(c, sources, n)
  {
    if n > 0 {
      NewKey(c, sources, n - 1, p);
    }
  }

  /** The checkpoint of a run that started from the lines `file` and has got to source `n`. */
  ghost predicate GotTo(c: Config, sources: seq<SourceId>, file: seq<Rec>, n: nat, checkpoint: Checkpoint)
    requires ProposesBodies(c.mine) && n <= |sources|
    reads checkpoint
  {
    && checkpoint.Valid()
    && checkpoint.file == file + MissingLines(c, sources, n, Loaded(file))
    && checkpoint.records.Keys == Loaded(file).Keys + KeysUpTo(c, sources, n)
  }

  lemma LineIsFresh(c: Config, sources: seq<SourceId>, i: nat)
    requires ProposesBodies(c.mine) && i < |sources|
    ensures IsFresh(c, sources, FreshLine(c, sources, i))
  {
    hide FreshLine;
  }

  lemma {:induction false} MissingFresh(c: Config, sources: seq<SourceId>, file: seq<Rec>, n: nat)
    requires ProposesBodies(c.mine) && n <= |sources| && AllFresh(c, sources, file)
    ensures AllFresh(c, sources, file + MissingLines(c, sources, n, Loaded(file)))
  {
    hide FreshLine, Loaded, IsFresh;
    if n == 0 {
      assert file + [] == file;
    } else {
      MissingFresh(c, sources, file, n - 1);
      var before, line := file + MissingLines(c, sources, n - 1, Loaded(file)), FreshLine(c, sources, n - 1);
      LineIsFresh(c, sources, n - 1);
      assert file + (MissingLines(c, sources, n - 1, Loaded(file)) + [line]) == before + [line];
      assert file + (MissingLines(c, sources, n - 1, Loaded(file)) + []) == before;
    }
  }

  /** Every source of the wave without a record has been authored against the frozen table. */
  ghost predicate AuthoredFor(c: Config, wave: seq<SourceId>, authored: map<SourceId, Option<Authored>>, frozen: Table,
                              records: map<(SourceId, string), Rec>)
  {
    forall n | 0 <= n < |wave| && (wave[n], c.arm) !in records ::
      wave[n] in authored && authored[wave[n]] == c.author(wave[n], frozen)
  }

  lemma NotYetReached(c: Config, sources: seq<SourceId>, file: seq<Rec>, n: nat, checkpoint: Checkpoint)
    requires ProposesBodies(c.mine) && Distinct(sources) && n < |sources|
    requires GotTo(c, sources, file, n, checkpoint)
    ensures checkpoint.Valid() && checkpoint.file == file + MissingLines(c, sources, n, Loaded(file))
    ensures checkpoint.records.Keys == Loaded(file).Keys + KeysUpTo(c, sources, n)
    ensures (sources[n], c.arm) in checkpoint.records <==> (sources[n], c.arm) in Loaded(file)
  {
    NotYetAt(c, sources, file, n, n, checkpoint);
  }

  lemma OneMoreLine(c: Config, sources: seq<SourceId>, n: nat, records: map<(SourceId, string), Rec>, file: seq<Rec>)
    requires ProposesBodies(c.mine) && n < |sources|
    ensures var lines := file + MissingLines(c, sources, n, records);
      file + MissingLines(c, sources, n + 1, records)
      == if (sources[n], c.arm) in records then lines else lines + [FreshLine(c, sources, n)]
  {
    hide FreshLine;
    var before := MissingLines(c, sources, n, records);
    assert MissingLines(c, sources, n + 1, records)
        == before + if (sources[n], c.arm) in records then [] else [FreshLine(c, sources, n)];
    assert file + (before + []) == file + before;
    assert file + (before + [FreshLine(c, sources, n)]) == (file + before) + [FreshLine(c, sources, n)];
  }

  lemma OneMoreKey(c: Config, sources: seq<SourceId>, n: nat, keys: set<(SourceId, string)>)
    requires n < |sources|
    ensures keys + KeysUpTo(c, sources, n + 1) == (keys + KeysUpTo(c, sources, n)) + {(sources[n], c.arm)}
  {
  }

  lemma GotOneFurther(c: Config, sources: seq<SourceId>, file: seq<Rec>, n: nat, had: bool, lines: seq<Rec>,
                      keys: set<(SourceId, string)>, checkpoint: Checkpoint)
    requires ProposesBodies(c.mine) && n < |sources| && checkpoint.Valid()
    requires lines == file + MissingLines(c, sources, n, Loaded(file))
    requires keys == Loaded(file).Keys + KeysUpTo(c, sources, n)
    requires had == ((sources[n], c.arm) in Loaded(file))
    requires checkpoint.file == if had then lines else lines + [FreshLine(c, sources, n)]
    requires checkpoint.records.Keys == keys + {(sources[n], c.arm)}
    ensures GotTo(c, sources, file, n + 1, checkpoint)
  {
    hide FreshLine, Loaded, MissingLines, KeysUpTo, ProposesBodies, Checkpoint.Valid;
    OneMoreLine(c, sources, n, Loaded(file), file);
    OneMoreKey(c, sources, n, Loaded(file).Keys);
  }

  /** One source on: its record is there, whether it was before or has just been written. */
  method Advance(c: Config, sources: seq<SourceId>, ghost file: seq<Rec>, n: nat, wi: nat, frozen: Table,
                 authored: map<SourceId, Option<Authored>>, checkpoint: Checkpoint) returns (rec: Rec)
    requires ProposesBodies(c.mine) && Distinct(sources) && AllFresh(c, sources, file)
    requires n < |sources| && FreshLine(c, sources, n) == RecordOf(c, sources[n], wi, frozen)
    requires (sources[n], c.arm) !in Loaded(file) ==>
      sources[n] in authored && authored[sources[n]] == c.author(sources[n], frozen)
    requires GotTo(c, sources, file, n, checkpoint)
    modifies checkpoint
    ensures GotTo(c, sources, file, n + 1, checkpoint) && rec == FreshLine(c, sources, n)
  {
    hide AllFresh, Loaded, FreshLine, RecordOf, Distinct, MissingLines, ProposesBodies, GotTo, KeysUpTo,
      Checkpoint.Valid;
    NotYetReached(c, sources, file, n, checkpoint);
    ghost var had, lines, keys := (sources[n], c.arm) in Loaded(file), checkpoint.file, checkpoint.records.Keys;
    rec := Obtain(c, sources[n], wi, frozen, authored, checkpoint);
    assert checkpoint.records.Keys == keys + {(sources[n], c.arm)};
    GotOneFurther(c, sources, file, n, had, lines, keys, checkpoint);
    WrittenIsFresh(c, sources, file, n + 1, checkpoint, n);
  }

  lemma WrittenIsFresh(c: Config, sources: seq<SourceId>, file: seq<Rec>, n: nat, checkpoint: Checkpoint, i: nat)
    requires ProposesBodies(c.mine) && Distinct(sources) && AllFresh(c, sources, file)
    requires n <= |sources| && GotTo(c, sources, file, n, checkpoint) && i < n
    requires (sources[i], c.arm) in checkpoint.records
    ensures checkpoint.records[(sources[i], c.arm)] == FreshLine(c, sources, i)
  {
    hide AllFresh, FreshLine, Distinct, Loaded, MissingLines, KeysUpTo, ProposesBodies;
    MissingFresh(c, sources, file, n);
    LoadedFresh(c, sources, checkpoint.file, i);
  }

  /** The parallel part of a wave. */
  method AuthorWave(c: Config, sources: seq<SourceId>, ghost file: seq<Rec>, w: nat, frozen: Table,
                    checkpoint: Checkpoint) returns (authored: map<SourceId, Option<Authored>>)
    requires ProposesBodies(c.mine) && Distinct(sources) && w < WaveCount(sources) && StartOf(w) <= |sources|
    requires GotTo(c, sources, file, StartOf(w), checkpoint)
    ensures AuthoredFor(c, WaveAt(sources, w), authored, frozen, Loaded(file))
  {
    hide GotTo, Loaded, Distinct, WaveCount, StartOf, WaveAt, AuthoredFor, ProposesBodies, Checkpoint.Valid;
    authored := AuthorMissing(c, WaveAt(sources, w), frozen, checkpoint);
    CoversWave(c, sources, file, w, authored, frozen, checkpoint);
  }

  /** Where position `n` of wave `w` is in the list of all sources, and what the uninterrupted run
      writes there. */
  lemma PositionIn(c: Config, sources: seq<SourceId>, w: nat, n: nat) returns (p: nat)
    requires ProposesBodies(c.mine) && w < WaveCount(sources) && n < |WaveAt(sources, w)|
    ensures p == StartOf(w) + n && p < |sources| && WaveAt(sources, w)[n] == sources[p]
    ensures FreshLine(c, sources, p) == RecordOf(c, sources[p], w, After(c, sources, w).table)
  {
    hide After, RecordOf;
    PositionOf(sources, w, n);
    p := StartOf(w) + n;
  }

  /** One wave: author what is missing, then the serial tail. */
  method RunWave(c: Config, sources: seq<SourceId>, ghost file: seq<Rec>, w: nat, st: Arm, checkpoint: Checkpoint)
      returns (st': Arm)
    requires ProposesBodies(c.mine) && Distinct(sources) && AllFresh(c, sources, file)
    requires w < WaveCount(sources) && st == After(c, sources, w) && StartOf(w) <= |sources|
    requires GotTo(c, sources, file, StartOf(w), checkpoint)
    modifies checkpoint
    ensures StartOf(w) + |WaveAt(sources, w)| <= |sources|
    ensures GotTo(c, sources, file, StartOf(w) + |WaveAt(sources, w)|, checkpoint)
    ensures st' == AbsorbAll(c, st, WaveAt(sources, w), w, |WaveAt(sources, w)|)
  {
    hide After, AllFresh, Loaded, Distinct, WaveCount, GotTo, WaveAt, FreshLine, RecordOf, ProposesBodies, StartOf,
      Absorb, AbsorbAll, AuthoredFor, Checkpoint.Valid;
    var wave := WaveAt(sources, w);
    var authored := AuthorWave(c, sources, file, w, st.table, checkpoint);
    st' := st;
    AbsorbNone(c, st, wave, w);
    ghost var p := StartOf(w);
    for n := 0 to |wave|
      invariant p == StartOf(w) + n <= |sources| && GotTo(c, sources, file, p, checkpoint)
      invariant st' == AbsorbAll(c, st, wave, w, n)
    {
      var rec := TakeTurn(c, sources, file, w, n, st, wave, authored, checkpoint);
      AbsorbOne(c, st, wave, w, n);
      st' := Absorb(c, st', wave[n], rec);
      p := p + 1;
    }
  }

  lemma AbsorbNone(c: Config, st: Arm, wave: seq<SourceId>, wi: nat)
    ensures AbsorbAll(c, st, wave, wi, 0) == st
  {
  }

  lemma AbsorbOne(c: Config, st: Arm, wave: seq<SourceId>, wi: nat, n: nat)
    requires n < |wave|
    ensures AbsorbAll(c, st, wave, wi, n + 1)
      == Absorb(c, AbsorbAll(c, st, wave, wi, n), wave[n], RecordOf(c, wave[n], wi, st.table))
  {
    hide Absorb, RecordOf;
  }

  /** The tail's turn for position `n` of wave `w`. */
  method TakeTurn(c: Config, sources: seq<SourceId>, ghost file: seq<Rec>, w: nat, n: nat, st: Arm, wave: seq<SourceId>,
                  authored: map<SourceId, Option<Authored>>, checkpoint: Checkpoint) returns (rec: Rec)
    requires ProposesBodies(c.mine) && Distinct(sources) && AllFresh(c, sources, file)
    requires w < WaveCount(sources) && st == After(c, sources, w) && wave == WaveAt(sources, w) && n < |wave|
    requires AuthoredFor(c, wave, authored, st.table, Loaded(file))
    requires StartOf(w) + n <= |sources| && GotTo(c, sources, file, StartOf(w) + n, checkpoint)
    modifies checkpoint
    ensures StartOf(w) + n + 1 <= |sources| && GotTo(c, sources, file, StartOf(w) + n + 1, checkpoint)
    ensures rec == RecordOf(c, wave[n], w, st.table)
  {
    hide After, AllFresh, Loaded, Distinct, WaveCount, GotTo, WaveAt, FreshLine, RecordOf, ProposesBodies;
    ghost var p := PositionIn(c, sources, w, n);
    rec := Advance(c, sources, file, StartOf(w) + n, w, st.table, authored, checkpoint);
  }

  lemma NotYetAt(c: Config, sources: seq<SourceId>, file: seq<Rec>, n: nat, p: nat, checkpoint: Checkpoint)
    requires ProposesBodies(c.mine) && Distinct(sources) && n <= p < |sources|
    requires GotTo(c, sources, file, n, checkpoint)
    ensures (sources[p], c.arm) in checkpoint.records <==> (sources[p], c.arm) in Loaded(file)
  {
    hide Loaded, Distinct, ProposesBodies, MissingLines, KeysUpTo;
    NewKey(c, sources, n, p);
  }

  /** Every source of the wave without a line at the start has been authored. */
  lemma CoversWave(c: Config, sources: seq<SourceId>, file: seq<Rec>, w: nat,
                   authored: map<SourceId, Option<Authored>>, frozen: Table, checkpoint: Checkpoint)
    requires ProposesBodies(c.mine) && Distinct(sources) && w < WaveCount(sources)
    requires GotTo(c, sources, file, StartOf(w), checkpoint)
    requires forall sid :: sid in authored <==> sid in WaveAt(sources, w) && (sid, c.arm) !in checkpoint.records
    requires forall sid | sid in authored :: authored[sid] == c.author(sid, frozen)
    ensures AuthoredFor(c, WaveAt(sources, w), authored, frozen, Loaded(file))
  {
    hide Loaded, Distinct, StartOf, ProposesBodies, WaveAt, WaveCount, GotTo, Checkpoint.Valid;
    var wave := WaveAt(sources, w);
    forall n | 0 <= n < |wave| && (wave[n], c.arm) !in Loaded(file) ensures wave[n] in authored {
      PositionOf(sources, w, n);
      NotYetAt(c, sources, file, StartOf(w), StartOf(w) + n, checkpoint);
    }
  }

  /** `_run_arm`. RESUME IS REFINEMENT: started from any file whose lines of this arm are lines that the
      uninterrupted run writes too, in particular from what a kill after any of its writes leaves
      behind, it ends with the rows and the tables of the uninterrupted run; and it appends exactly the
      lines that were missing, so nothing is authored twice. Lines of other arms play no part. */
  method RunArm(c: Config, sources: seq<SourceId>, checkpoint: Checkpoint, memo: PricingMemo)
      returns (rows: seq<Row>, waveTables: seq<Table>)
    requires ProposesBodies(c.mine) && Distinct(sources) && memo.Valid()
    requires checkpoint.Valid() && AllFresh(c, sources, checkpoint.file)
    modifies checkpoint, memo
    ensures memo.Valid()
    ensures rows == After(c, sources, WaveCount(sources)).rows
    ensures waveTables == After(c, sources, WaveCount(sources)).waveTables
    ensures checkpoint.Valid()
    ensures checkpoint.file
      == old(checkpoint.file) + MissingLines(c, sources, |sources|, Loaded(old(checkpoint.file)))
  {
    hide AllFresh, Distinct, PricingMemo.Valid, CloseWave, AbsorbAll, ProposesBodies, After;
    var st := START;
    var waves := WaveCount(sources);
    ghost var file := checkpoint.file;
    ghost var reached := 0;
    StartOfRun(c, sources, checkpoint);
    NoWave(c, sources);
    hide GotTo, Loaded, StartOf, WaveAt, WaveCount, MissingLines;
    for w := 0 to waves
      invariant memo.Valid() && st == After(c, sources, w)
      invariant reached <= |sources| && (w < waves ==> reached == StartOf(w)) && (w == waves ==> reached == |sources|)
      invariant GotTo(c, sources, file, reached, checkpoint)
    {
      reached := WaveEnds(sources, w);
      var tail := RunWave(c, sources, file, w, st, checkpoint);
      AfterNext(c, sources, w);
      st := Close(c, tail, |st.readings|, w, memo);
    }
    rows, waveTables := st.rows, st.waveTables;
    EndOfRun(c, sources, file, checkpoint);
  }

  lemma AfterNext(c: Config, sources: seq<SourceId>, w: nat)
    requires ProposesBodies(c.mine) && w < WaveCount(sources)
    ensures var st, wave := After(c, sources, w), WaveAt(sources, w);
      After(c, sources, w + 1) == CloseWave(c, AbsorbAll(c, st, wave, w, |wave|), |st.readings|, w)
  {
    hide CloseWave, AbsorbAll, WaveAt, WaveCount;
  }

  lemma NoWave(c: Config, sources: seq<SourceId>)
    requires ProposesBodies(c.mine)
    ensures After(c, sources, 0) == START
    ensures WaveCount(sources) == 0 <==> |sources| == 0
    ensures StartOf(0) == 0
  {
  }

  lemma WaveEnds(sources: seq<SourceId>, w: nat) returns (p: nat)
    requires w < WaveCount(sources)
    ensures p == StartOf(w) + |WaveAt(sources, w)|
    ensures p == if w + 1 == WaveCount(sources) then |sources| else StartOf(w + 1)
    ensures p <= |sources|
  {
    p := StartOf(w) + |WaveAt(sources, w)|;
  }

  lemma StartOfRun(c: Config, sources: seq<SourceId>, checkpoint: Checkpoint)
    requires ProposesBodies(c.mine) && checkpoint.Valid()
    ensures GotTo(c, sources, checkpoint.file, 0, checkpoint)
  {
    assert checkpoint.file + [] == checkpoint.file;
  }

  lemma EndOfRun(c: Config, sources: seq<SourceId>, file: seq<Rec>, checkpoint: Checkpoint)
    requires ProposesBodies(c.mine) && GotTo(c, sources, file, |sources|, checkpoint)
    ensures checkpoint.Valid()
    ensures checkpoint.file == file + MissingLines(c, sources, |sources|, Loaded(file))
  {
  }

  /** The lines of one arm. */
  function OfArm(file: seq<Rec>, arm: string): seq<Rec> {
    if file == [] then []
    else
      var rec := file[|file| - 1];
      OfArm(file[..|file| - 1], arm) + if rec.arm == arm then [rec] else []
  }

  /** Freshness is about the lines of the arm alone, wherever they stand between those of others. */
  lemma {:induction false} FreshOfArm(c: Config, sources: seq<SourceId>, file: seq<Rec>)
    requires ProposesBodies(c.mine)
    ensures AllFresh(c, sources, file) <==> AllFresh(c, sources, OfArm(file, c.arm))
    ensures forall rec | rec in OfArm(file, c.arm) :: rec.arm == c.arm
  {
    hide IsFresh, ProposesBodies;
    if file != [] {
      var n := |file| - 1;
      FreshOfArm(c, sources, file[..n]);
      var init, own := file[..n], OfArm(file[..n], c.arm);
      assert file == init + [file[n]];
      LastFresh(c, sources, init, file[n]);
      LastFresh(c, sources, own, file[n]);
      assert own + [] == own;
    }
  }

  lemma LastFresh(c: Config, sources: seq<SourceId>, init: seq<Rec>, rec: Rec)
    requires ProposesBodies(c.mine)
    ensures AllFresh(c, sources, init + [rec])
      <==> AllFresh(c, sources, init) && (rec.arm == c.arm ==> IsFresh(c, sources, rec))
  {
    hide IsFresh, ProposesBodies;
    var file := init + [rec];
    assert forall l | 0 <= l < |init| :: file[l] == init[l];
    assert file[|init|] == rec;
  }

  lemma PrefixFresh(c: Config, sources: seq<SourceId>, lines: seq<Rec>, k: nat)
    requires ProposesBodies(c.mine) && AllFresh(c, sources, lines) && k <= |lines|
    ensures AllFresh(c, sources, lines[..k])
  {
    hide IsFresh, ProposesBodies;
  }

  /** WHAT A KILL LEAVES CAN BE RESUMED. The arms append to one file, on two threads. If of this arm the
      first `k` lines are left, in whatever way lines of other arms are mixed in, the file meets what
      `RunArm` needs. */
  lemma PrefixResumable(c: Config, sources: seq<SourceId>, file: seq<Rec>, k: nat, left: seq<Rec>)
    requires ProposesBodies(c.mine) && AllFresh(c, sources, file)
    requires var written := OfArm(file + MissingLines(c, sources, |sources|, Loaded(file)), c.arm);
      k <= |written| && OfArm(left, c.arm) == written[..k]
    ensures AllFresh(c, sources, left)
  {
    hide AllFresh, MissingLines, Loaded, ProposesBodies, OfArm;
    MissingFresh(c, sources, file, |sources|);
    var full := file + MissingLines(c, sources, |sources|, Loaded(file));
    FreshOfArm(c, sources, full);
    PrefixFresh(c, sources, OfArm(full, c.arm), k);
    FreshOfArm(c, sources, left);
  }

  /** What one arm appends leaves the lines of another arm as they were. */
  lemma {:induction false} OtherArmKept(c: Config, sources: seq<SourceId>, file: seq<Rec>, n: nat,
                                        records: map<(SourceId, string), Rec>, other: Config)
    requires ProposesBodies(c.mine) && ProposesBodies(other.mine) && n <= |sources| && other.arm != c.arm
    requires AllFresh(other, sources, file)
    ensures AllFresh(other, sources, file + MissingLines(c, sources, n, records))
  {
    hide IsFresh, After, ProposesBodies;
    if n == 0 {
      assert file + [] == file;
    } else {
      OtherArmKept(c, sources, file, n - 1, records, other);
      OneMoreLine(c, sources, n - 1, records, file);
      LastFresh(other, sources, file + MissingLines(c, sources, n - 1, records), FreshLine(c, sources, n - 1));
    }
  }

  /** The two arms of `run_bench`, one behind the other over the shared checkpoint. Whatever a killed run
      of both has left, each arm ends with the rows of its uninterrupted run. */
  method RunArms(gov: Config, ung: Config, sources: seq<SourceId>, checkpoint: Checkpoint, memo: PricingMemo)
      returns (govRows: seq<Row>, govTables: seq<Table>, ungRows: seq<Row>, ungTables: seq<Table>)
    requires ProposesBodies(gov.mine) && ProposesBodies(ung.mine) && gov.arm != ung.arm
    requires Distinct(sources) && memo.Valid() && checkpoint.Valid()
    requires AllFresh(gov, sources, checkpoint.file) && AllFresh(ung, sources, checkpoint.file)
    modifies checkpoint, memo
    ensures govRows == After(gov, sources, WaveCount(sources)).rows
    ensures govTables == After(gov, sources, WaveCount(sources)).waveTables
    ensures ungRows == After(ung, sources, WaveCount(sources)).rows
    ensures ungTables == After(ung, sources, WaveCount(sources)).waveTables
    ensures checkpoint.Valid() && old(checkpoint.file) <= checkpoint.file
  {
    hide AllFresh, Distinct, PricingMemo.Valid, Checkpoint.Valid, ProposesBodies, After, WaveCount, MissingLines, Loaded;
    ghost var file := checkpoint.file;
    govRows, govTables := RunArm(gov, sources, checkpoint, memo);
    OtherArmKept(gov, sources, file, |sources|, Loaded(file), ung);
    ungRows, ungTables := RunArm(ung, sources, checkpoint, memo);
  }

  /** The part of a wave behind the serial tail. */
  method Close(c: Config, st: Arm, before: nat, wi: nat, memo: PricingMemo) returns (st': Arm)
    requires ValidTable(st.table) && ProposesBodies(c.mine) && before <= |st.readings| && memo.Valid()
    modifies memo
    ensures memo.Valid() && st' == CloseWave(c, st, before, wi)
  {
    hide CorpusDl, StatsOf, PricingMemo.Valid, Grown;
    var fresh' := st.readings[before..];
    var prequential := st.prequential;
    for i := 0 to |fresh'|
      invariant memo.Valid() && prequential == st.prequential + ReadingsDl(fresh'[..i], st.table)
    {
      assert fresh'[..i + 1][..i] == fresh'[..i];
      var stats := memo.ReadingStats(fresh'[i], st.table);
      prequential := prequential + stats.dl;
    }
    assert fresh'[..|fresh'|] == fresh';
    var table := GreedyGrow(st.table, MiningCorpus(c, st.readings), c.governed, c.mine, memo);
    var reported := 0;
    if st.readings != [] {
      var total, _ := memo.Corpus(st.readings, table, "");
      reported := total;
    }
    var row := Row(wi, st.tokensIn, st.tokensOut, st.promptBytes, reported, prequential, st.certified);
    st' := st.(table := table, prequential := prequential, rows := st.rows + [row],
               waveTables := st.waveTables + [st.table]);
  }

  // ---------------------------------------------------------------- the counters

  function Sum(lines: seq<Rec>, of: Rec -> nat): nat {
    if lines == [] then 0 else Sum(lines[..|lines| - 1], of) + of(lines[|lines| - 1])
  }

  function ReadingsOf(lines: seq<Rec>): seq<Reading> {
    if lines == [] then []
    else
      var rec := lines[|lines| - 1];
      ReadingsOf(lines[..|lines| - 1])
      + if rec.statements.Some? then [Reading(rec.statements.value, "exogenous")] else []
  }

  /** The counters of an arm are sums over checkpoint lines, its readings those of the lines in order. */
  ghost predicate Counts(st: Arm, lines: seq<Rec>) {
    && st.tokensIn == Sum(lines, (r: Rec) => r.tokensIn)
    && st.tokensOut == Sum(lines, (r: Rec) => r.tokensOut)
    && st.certified == Sum(lines, (r: Rec) => if r.statements.Some? && r.certified then 1 else 0)
    && st.readings == ReadingsOf(lines)
    && |st.promptBytes| == |lines|
  }

  lemma CountOne(c: Config, st: Arm, lines: seq<Rec>, sid: SourceId, rec: Rec)
    requires Counts(st, lines)
    ensures Counts(Absorb(c, st, sid, rec), lines + [rec])
  {
    assert (lines + [rec])[..|lines|] == lines;
    assert st.readings + [] == st.readings;
  }

  lemma {:induction false} CountWave(c: Config, sources: seq<SourceId>, w: nat, n: nat)
    requires ProposesBodies(c.mine) && w < WaveCount(sources) && n <= |WaveAt(sources, w)|
    requires StartOf(w) <= |sources| && Counts(After(c, sources, w), MissingLines(c, sources, StartOf(w), map[]))
    ensures StartOf(w) + n <= |sources|
    ensures Counts(AbsorbAll(c, After(c, sources, w), WaveAt(sources, w), w, n),
                   MissingLines(c, sources, StartOf(w) + n, map[]))
  {
    hide Counts, Absorb, After, WaveAt, WaveCount, StartOf, FreshLine, RecordOf;
    if n > 0 {
      CountWave(c, sources, w, n - 1);
      var p := PositionIn(c, sources, w, n - 1);
      var before := AbsorbAll(c, After(c, sources, w), WaveAt(sources, w), w, n - 1);
      CountOne(c, before, MissingLines(c, sources, p, map[]), sources[p], FreshLine(c, sources, p));
    }
  }

  /** How many sources the first `w` waves have. */
  function EndOf(sources: seq<SourceId>, w: nat): nat {
    if w >= WaveCount(sources) then |sources| else StartOf(w)
  }

  lemma EndsMeet(sources: seq<SourceId>, w: nat)
    requires w < WaveCount(sources)
    ensures EndOf(sources, w) == StartOf(w) <= |sources|
    ensures EndOf(sources, w + 1) == StartOf(w) + |WaveAt(sources, w)| <= |sources|
  {
  }

  lemma CountNext(c: Config, sources: seq<SourceId>, w: nat)
    requires ProposesBodies(c.mine) && w < WaveCount(sources) && EndOf(sources, w) <= |sources|
    requires Counts(After(c, sources, w), MissingLines(c, sources, EndOf(sources, w), map[]))
    ensures EndOf(sources, w + 1) <= |sources|
    ensures Counts(After(c, sources, w + 1), MissingLines(c, sources, EndOf(sources, w + 1), map[]))
  {
    hide Counts, AbsorbAll, WaveAt, FreshLine, WaveCount, StartOf, After, CloseWave, EndOf, ProposesBodies;
    EndsMeet(sources, w);
    var wave := WaveAt(sources, w);
    CountWave(c, sources, w, |wave|);
    AfterNext(c, sources, w);
    var st := After(c, sources, w);
    ClosingCountsNothing(c, AbsorbAll(c, st, wave, w, |wave|), |st.readings|, w,
                         MissingLines(c, sources, EndOf(sources, w + 1), map[]));
  }

  /** EVERY TOKEN IS COUNTED ONCE. After any number of waves the token and certificate counters, which the
      rows repeat, are the sums over the lines the uninterrupted run writes for the sources so far, and
      the readings are those of the lines, in source order. */
  lemma {:induction false} CountersAreSums(c: Config, sources: seq<SourceId>, w: nat)
    requires ProposesBodies(c.mine) && w <= WaveCount(sources)
    ensures EndOf(sources, w) <= |sources|
    ensures Counts(After(c, sources, w), MissingLines(c, sources, EndOf(sources, w), map[]))
  {
    hide Counts, WaveCount, After, EndOf, ProposesBodies, MissingLines;
    if w == 0 {
      NothingCounted(c, sources);
    } else {
      CountersAreSums(c, sources, w - 1);
      CountNext(c, sources, w - 1);
    }
  }

  lemma NothingCounted(c: Config, sources: seq<SourceId>)
    requires ProposesBodies(c.mine)
    ensures EndOf(sources, 0) == 0 && Counts(After(c, sources, 0), MissingLines(c, sources, EndOf(sources, 0), map[]))
  {
    NoWave(c, sources);
    assert MissingLines(c, sources, 0, map[]) == [];
    hide After, MissingLines, ProposesBodies;
    assert Counts(START, []);
  }

  lemma ClosingCountsNothing(c: Config, st: Arm, before: nat, wi: nat, lines: seq<Rec>)
    requires ValidTable(st.table) && ProposesBodies(c.mine) && before <= |st.readings| && Counts(st, lines)
    ensures Counts(CloseWave(c, st, before, wi), lines)
  {
    hide Grown, ReportedDl, ReadingsDl;
  }

  // ---------------------------------------------------------------- the rows

  /** The lines the uninterrupted run writes for the first `n` sources. */
  ghost function Lines(c: Config, sources: seq<SourceId>, n: nat): seq<Rec>
    requires ProposesBodies(c.mine) && n <= |sources|
  {
    MissingLines(c, sources, n, map[])
  }

  /** What a line's reading costs under the table it was authored against. */
  ghost function Charge(rec: Rec): nat {
    if rec.statements.Some? && ValidTable(rec.frozenTable) then
      ReadingDl(Reading(rec.statements.value, "exogenous"), rec.frozenTable)
    else 0
  }

  ghost function Charged(lines: seq<Rec>): nat {
    if lines == [] then 0 else Charged(lines[..|lines| - 1]) + Charge(lines[|lines| - 1])
  }

  function PromptOf(c: Config, rec: Rec): nat {
    c.promptBytes(rec.sourceId, rec.frozenTable)
  }

  function Prompts(c: Config, lines: seq<Rec>): seq<nat> {
    seq(|lines|, k requires 0 <= k < |lines| => PromptOf(c, lines[k]))
  }

  /** THE COLUMNS OF A ROW, from the lines of the sources so far. */
  ghost predicate RowSums(c: Config, row: Row, i: nat, lines: seq<Rec>, table: Table)
    requires ValidTable(table)
  {
    && row.wave == i
    && row.tokensIn == Sum(lines, (r: Rec) => r.tokensIn)
    && row.tokensOut == Sum(lines, (r: Rec) => r.tokensOut)
    && row.certified == Sum(lines, (r: Rec) => if r.statements.Some? && r.certified then 1 else 0)
    && row.promptBytes == Prompts(c, lines)
    && row.prequentialDl == Charged(lines)
    && row.reportedDl == if ReadingsOf(lines) == [] then 0 else CorpusDl(ReadingsOf(lines), table)
  }

  /** What each source contributes: authored in the wave of its position, against that wave's table. */
  lemma {:induction false} LinesAre(c: Config, sources: seq<SourceId>, n: nat)
    requires ProposesBodies(c.mine) && n <= |sources|
    ensures |Lines(c, sources, n)| == n
    ensures forall k | 0 <= k < n :: k / 8 < WaveCount(sources)
    ensures forall k | 0 <= k < n ::
      Lines(c, sources, n)[k] == RecordOf(c, sources[k], k / 8, After(c, sources, k / 8).table)
  {
    hide After, RecordOf;
    if n > 0 {
      LinesAre(c, sources, n - 1);
    }
  }

  /** What a record holds: the answer, or nothing and no cost when the author failed. */
  lemma RecordHolds(c: Config, sid: SourceId, wi: nat, table: Table)
    ensures var rec := RecordOf(c, sid, wi, table);
      && rec.sourceId == sid && rec.arm == c.arm && rec.wave == wi && rec.frozenTable == table
      && (c.author(sid, table).None? ==> rec.statements.None? && rec.tokensIn == rec.tokensOut == 0 && !rec.certified)
      && (c.author(sid, table).Some? ==>
            c.author(sid, table).value == Authored(rec.statements, rec.tokensIn, rec.tokensOut, rec.certified))
  {
  }

  lemma {:induction false} PromptsWave(c: Config, sources: seq<SourceId>, w: nat, n: nat)
    requires ProposesBodies(c.mine) && w < WaveCount(sources) && n <= |WaveAt(sources, w)| && StartOf(w) <= |sources|
    requires After(c, sources, w).promptBytes == Prompts(c, Lines(c, sources, StartOf(w)))
    ensures StartOf(w) + n <= |sources|
    ensures AbsorbAll(c, After(c, sources, w), WaveAt(sources, w), w, n).promptBytes
      == Prompts(c, Lines(c, sources, StartOf(w) + n))
  {
    hide After, WaveAt, WaveCount, StartOf, FreshLine;
    if n > 0 {
      PromptsWave(c, sources, w, n - 1);
      var p := PositionIn(c, sources, w, n - 1);
      assert Lines(c, sources, p + 1) == Lines(c, sources, p) + [FreshLine(c, sources, p)];
    }
  }

  lemma ChargeOne(c: Config, sid: SourceId, wi: nat, table: Table, before: seq<Reading>, st: Arm)
    requires ValidTable(table) && before <= st.readings
    ensures before <= Absorb(c, st, sid, RecordOf(c, sid, wi, table)).readings
    ensures ReadingsDl(Absorb(c, st, sid, RecordOf(c, sid, wi, table)).readings[|before|..], table)
      == ReadingsDl(st.readings[|before|..], table) + Charge(RecordOf(c, sid, wi, table))
  {
    hide ReadingDl, ValidTable;
    var rec := RecordOf(c, sid, wi, table);
    assert rec.frozenTable == table;
    var after := Absorb(c, st, sid, rec).readings;
    if rec.statements.Some? {
      var r := Reading(rec.statements.value, "exogenous");
      assert after[|before|..] == st.readings[|before|..] + [r];
      assert (st.readings[|before|..] + [r])[..|st.readings[|before|..]|] == st.readings[|before|..];
    } else {
      assert after == st.readings;
    }
  }

  /** What the readings of the first `n` sources of a wave cost under its frozen table. */
  ghost function NewDl(c: Config, st: Arm, wave: seq<SourceId>, w: nat, n: nat): nat
    requires ValidTable(st.table) && n <= |wave|
  {
    ReadingsDl(AbsorbAll(c, st, wave, w, n).readings[|st.readings|..], st.table)
  }

  lemma NewDlNext(c: Config, st: Arm, wave: seq<SourceId>, w: nat, n: nat)
    requires ValidTable(st.table) && n < |wave|
    ensures NewDl(c, st, wave, w, 0) == 0
    ensures NewDl(c, st, wave, w, n + 1) == NewDl(c, st, wave, w, n) + Charge(RecordOf(c, wave[n], w, st.table))
  {
    hide ReadingDl, RecordOf, Charge;
    AbsorbNone(c, st, wave, w);
    assert st.readings[|st.readings|..] == [];
    AbsorbOne(c, st, wave, w, n);
    ChargeOne(c, wave[n], w, st.table, st.readings, AbsorbAll(c, st, wave, w, n));
  }

  /** The first `n` lines of the wave are charged. */
  ghost predicate ChargedTo(c: Config, sources: seq<SourceId>, w: nat, n: nat)
    requires ProposesBodies(c.mine) && w < WaveCount(sources) && n <= |WaveAt(sources, w)|
  {
    && StartOf(w) + n <= |sources|
    && Charged(Lines(c, sources, StartOf(w))) + NewDl(c, After(c, sources, w), WaveAt(sources, w), w, n)
      == Charged(Lines(c, sources, StartOf(w) + n))
  }

  lemma ChargedNext(c: Config, sources: seq<SourceId>, w: nat, n: nat)
    requires ProposesBodies(c.mine) && w < WaveCount(sources) && n < |WaveAt(sources, w)| && ChargedTo(c, sources, w, n)
    ensures ChargedTo(c, sources, w, n + 1)
  {
    hide After, WaveAt, WaveCount, StartOf, FreshLine, RecordOf, Charge, Charged, Lines, NewDl, ProposesBodies, AbsorbAll,
      ReadingsDl, ValidTable;
    var p := PositionIn(c, sources, w, n);
    OneLineMore(c, sources, p);
    NewDlNext(c, After(c, sources, w), WaveAt(sources, w), w, n);
  }

  lemma {:induction false} ChargeWave(c: Config, sources: seq<SourceId>, w: nat, n: nat)
    requires ProposesBodies(c.mine) && w < WaveCount(sources) && n <= |WaveAt(sources, w)| && StartOf(w) <= |sources|
    ensures ChargedTo(c, sources, w, n)
  {
    hide After, WaveAt, WaveCount, StartOf, Charged, Lines, NewDl, ProposesBodies;
    if n == 0 {
      NoNewDl(c, After(c, sources, w), WaveAt(sources, w), w);
    } else {
      ChargeWave(c, sources, w, n - 1);
      ChargedNext(c, sources, w, n - 1);
    }
  }

  lemma NoNewDl(c: Config, st: Arm, wave: seq<SourceId>, w: nat)
    requires ValidTable(st.table)
    ensures NewDl(c, st, wave, w, 0) == 0
  {
    assert st.readings[|st.readings|..] == [];
  }

  lemma OneLineMore(c: Config, sources: seq<SourceId>, p: nat)
    requires ProposesBodies(c.mine) && p < |sources|
    ensures Lines(c, sources, p + 1) == Lines(c, sources, p) + [FreshLine(c, sources, p)]
    ensures Charged(Lines(c, sources, p + 1)) == Charged(Lines(c, sources, p)) + Charge(FreshLine(c, sources, p))
  {
    hide After, FreshLine, Charge;
    assert (Lines(c, sources, p) + [FreshLine(c, sources, p)])[..|Lines(c, sources, p)|] == Lines(c, sources, p);
  }

  /** The state behind `w` waves, against the lines so far. */
  ghost predicate ChargedSoFar(c: Config, st: Arm, lines: seq<Rec>) {
    st.prequential == Charged(lines) && st.promptBytes == Prompts(c, lines)
  }

  lemma ChargeNext(c: Config, sources: seq<SourceId>, w: nat)
    requires ProposesBodies(c.mine) && w < WaveCount(sources) && EndOf(sources, w) <= |sources|
    requires ChargedSoFar(c, After(c, sources, w), Lines(c, sources, EndOf(sources, w)))
    ensures EndOf(sources, w + 1) <= |sources|
    ensures ChargedSoFar(c, After(c, sources, w + 1), Lines(c, sources, EndOf(sources, w + 1)))
  {
    hide AbsorbAll, WaveAt, WaveCount, StartOf, After, EndOf, ProposesBodies, Lines, Charged, Prompts, Grown, ReportedDl,
      ReadingsDl;
    EndsMeet(sources, w);
    var wave := WaveAt(sources, w);
    ChargeWave(c, sources, w, |wave|);
    PromptsWave(c, sources, w, |wave|);
    AfterNext(c, sources, w);
  }

  /** A row repeats the state it closes. */
  lemma RowOfState(c: Config, st: Arm, before: nat, wi: nat, lines: seq<Rec>)
    requires ValidTable(st.table) && ProposesBodies(c.mine) && before <= |st.readings|
    requires Counts(st, lines) && ChargedSoFar(c, CloseWave(c, st, before, wi), lines)
    ensures var r := CloseWave(c, st, before, wi);
      && r.rows == st.rows + [r.rows[|st.rows|]] && RowSums(c, r.rows[|st.rows|], wi, lines, r.table)
      && r.waveTables == st.waveTables + [st.table]
      && r.table == Grown(st.table, st.readings + (if c.governed then [] else c.dreams), c.governed, c.mine)
  {
    hide Charged, Prompts, Grown, ReadingsDl, CorpusDl, ReadingsOf, Sum;
  }

  /** EVERY COLUMN OF EVERY ROW. Row `i` holds the sums over the lines of the first 8 (i + 1) sources, what
      their readings cost each under its own frozen table, and the corpus length under the table that has
      grown behind the wave; the audited table is the one in front of it. */
  lemma {:induction false} RowsAreSums(c: Config, sources: seq<SourceId>, w: nat)
    requires ProposesBodies(c.mine) && w <= WaveCount(sources)
    ensures EndOf(sources, w) == if 8 * w <= |sources| then 8 * w else |sources|
    ensures ChargedSoFar(c, After(c, sources, w), Lines(c, sources, EndOf(sources, w)))
    ensures |After(c, sources, w).rows| == w == |After(c, sources, w).waveTables|
    ensures forall i: nat | i < w :: RowRight(c, sources, w, i)
  {
    hide *;
    CountersAreSums(c, sources, w);
    EndIs(sources, w);
    if w == 0 {
      NoRows(c, sources);
    } else {
      RowsAreSums(c, sources, w - 1);
      CountersAreSums(c, sources, w - 1);
      EndIs(sources, w - 1);
      ChargeNext(c, sources, w - 1);
      LastRow(c, sources, w - 1);
      forall i: nat | i < w ensures RowRight(c, sources, w, i) {
        if i < w - 1 {
          RowStays(c, sources, w - 1, i);
        }
      }
    }
  }

  lemma NoRows(c: Config, sources: seq<SourceId>)
    requires ProposesBodies(c.mine)
    ensures EndOf(sources, 0) == 0 && ChargedSoFar(c, After(c, sources, 0), Lines(c, sources, 0))
    ensures |After(c, sources, 0).rows| == 0 == |After(c, sources, 0).waveTables|
  {
    NoWave(c, sources);
    assert Lines(c, sources, 0) == [];
  }

  /** Row `i` and audited table `i` behind `w` waves. */
  ghost predicate RowRight(c: Config, sources: seq<SourceId>, w: nat, i: nat)
    requires ProposesBodies(c.mine) && i < w <= WaveCount(sources)
  {
    var st := After(c, sources, w);
    var before, behind := After(c, sources, i), After(c, sources, i + 1);
    && i < |st.rows| && i < |st.waveTables| && EndOf(sources, i + 1) <= |sources|
    && RowSums(c, st.rows[i], i, Lines(c, sources, EndOf(sources, i + 1)), behind.table)
    && st.waveTables[i] == before.table
    && behind.table == Grown(before.table, behind.readings + (if c.governed then [] else c.dreams), c.governed, c.mine)
  }

  lemma EndIs(sources: seq<SourceId>, w: nat)
    requires w <= WaveCount(sources)
    ensures EndOf(sources, w) == if 8 * w <= |sources| then 8 * w else |sources|
  {
  }

  lemma ClosingState(c: Config, sources: seq<SourceId>, w: nat) returns (st: Arm)
    requires ProposesBodies(c.mine) && w < WaveCount(sources) && EndOf(sources, w) <= |sources|
    requires Counts(After(c, sources, w), MissingLines(c, sources, EndOf(sources, w), map[]))
    ensures ValidTable(st.table) && |After(c, sources, w).readings| <= |st.readings|
    ensures After(c, sources, w + 1) == CloseWave(c, st, |After(c, sources, w).readings|, w)
    ensures EndOf(sources, w + 1) <= |sources| && Counts(st, Lines(c, sources, EndOf(sources, w + 1)))
    ensures st.table == After(c, sources, w).table && st.rows == After(c, sources, w).rows
    ensures st.waveTables == After(c, sources, w).waveTables
  {
    hide Counts, AbsorbAll, WaveAt, FreshLine, WaveCount, StartOf, After, CloseWave, EndOf, ProposesBodies, MissingLines;
    EndsMeet(sources, w);
    var wave := WaveAt(sources, w);
    CountWave(c, sources, w, |wave|);
    AfterNext(c, sources, w);
    st := AbsorbAll(c, After(c, sources, w), wave, w, |wave|);
  }

  lemma LastRow(c: Config, sources: seq<SourceId>, w: nat)
    requires ProposesBodies(c.mine) && w < WaveCount(sources)
    requires EndOf(sources, w) <= |sources| && EndOf(sources, w + 1) <= |sources|
    requires Counts(After(c, sources, w), MissingLines(c, sources, EndOf(sources, w), map[]))
    requires ChargedSoFar(c, After(c, sources, w + 1), Lines(c, sources, EndOf(sources, w + 1)))
    requires |After(c, sources, w).rows| == w == |After(c, sources, w).waveTables|
    ensures RowRight(c, sources, w + 1, w)
    ensures |After(c, sources, w + 1).rows| == w + 1 == |After(c, sources, w + 1).waveTables|
    ensures After(c, sources, w + 1).rows[..w] == After(c, sources, w).rows
    ensures After(c, sources, w + 1).waveTables[..w] == After(c, sources, w).waveTables
  {
    hide Counts, ChargedSoFar, After, CloseWave, EndOf, ProposesBodies, MissingLines, Lines, RowSums, Grown, WaveCount;
    var st := ClosingState(c, sources, w);
    var before := After(c, sources, w);
    RowOfState(c, st, |before.readings|, w, Lines(c, sources, EndOf(sources, w + 1)));
    assert After(c, sources, w + 1).readings == st.readings;
  }

  lemma RowStays(c: Config, sources: seq<SourceId>, w: nat, i: nat)
    requires ProposesBodies(c.mine) && i < w < WaveCount(sources) && RowRight(c, sources, w, i)
    requires |After(c, sources, w).rows| == w == |After(c, sources, w).waveTables|
    requires |After(c, sources, w + 1).rows| == w + 1 == |After(c, sources, w + 1).waveTables|
    requires After(c, sources, w + 1).rows[..w] == After(c, sources, w).rows
    requires After(c, sources, w + 1).waveTables[..w] == After(c, sources, w).waveTables
    ensures RowRight(c, sources, w + 1, i)
  {
    hide After, EndOf, ProposesBodies, Lines, RowSums, Grown, WaveCount;
    assert After(c, sources, w + 1).rows[..w][i] == After(c, sources, w + 1).rows[i];
    assert After(c, sources, w + 1).waveTables[..w][i] == After(c, sources, w + 1).waveTables[i];
  }

  // ---------------------------------------------------------------- hindsight

  lemma {:induction false} ExogenousKept(readings: seq<Reading>)
    requires forall r | r in readings :: r.origin == "exogenous"
    ensures Witnesses(readings, true) == readings
  {
    if readings != [] {
      var n := |readings| - 1;
      ExogenousKept(readings[..n]);
      assert readings == readings[..n] + [readings[n]];
    }
  }

  lemma {:induction false} AbsorbedExogenous(c: Config, st: Arm, wave: seq<SourceId>, wi: nat, n: nat)
    requires n <= |wave| && forall r | r in st.readings :: r.origin == "exogenous"
    ensures forall r | r in AbsorbAll(c, st, wave, wi, n).readings :: r.origin == "exogenous"
  {
    if n > 0 {
      AbsorbedExogenous(c, st, wave, wi, n - 1);
    }
  }

  /** What the governed arm keeps: after `w` waves the corpus costs no more under the table than the
      readings were charged, and so it did in every row. */
  ghost predicate HindsightBelow(st: Arm, w: nat) {
    && ValidTable(st.table)
    && (forall r | r in st.readings :: r.origin == "exogenous")
    && CorpusDl(st.readings, st.table) <= st.prequential
    && |st.rows| == w
    && forall i | 0 <= i < w :: st.rows[i].reportedDl <= st.rows[i].prequentialDl
  }

  lemma StartsBelow()
    ensures HindsightBelow(START, 0)
  {
    assert CorpusDl([], map[]) == 0;
  }

  /** HINDSIGHT NEVER EXCEEDS PREQUENTIAL. On the governed arm, in every row of every run, the corpus
      length under the grown table is at most the sum of what each reading cost under the table it
      was authored against. */
  lemma {:induction false} HindsightBelowPrequential(c: Config, sources: seq<SourceId>, w: nat)
    requires ProposesBodies(c.mine) && w <= WaveCount(sources) && c.governed
    ensures HindsightBelow(After(c, sources, w), w)
  {
    hide HindsightBelow, CloseWave, AbsorbAll, WaveAt, WaveCount;
    if w == 0 {
      StartsBelow();
    } else {
      HindsightBelowPrequential(c, sources, w - 1);
      GovernedWave(c, After(c, sources, w - 1), WaveAt(sources, w - 1), w - 1);
    }
  }

  lemma GovernedWave(c: Config, st: Arm, wave: seq<SourceId>, w: nat)
    requires ValidTable(st.table) && ProposesBodies(c.mine) && c.governed && HindsightBelow(st, w)
    ensures HindsightBelow(CloseWave(c, AbsorbAll(c, st, wave, w, |wave|), |st.readings|, w), w + 1)
  {
    hide Grown, StatsOf, ReadingDl, CorpusDl, ReadingsDl, ValidTable, ProposesBodies;
    var absorbed := AbsorbAll(c, st, wave, w, |wave|);
    AbsorbedExogenous(c, st, wave, w, |wave|);
    assert absorbed.readings[..|st.readings|] == st.readings;
    GovernedPrice(c, absorbed, |st.readings|, w);
  }

  lemma GovernedPrice(c: Config, st: Arm, before: nat, wi: nat)
    requires ValidTable(st.table) && ProposesBodies(c.mine) && before <= |st.readings| && c.governed
    requires forall r | r in st.readings :: r.origin == "exogenous"
    requires CorpusDl(st.readings[..before], st.table) <= st.prequential
    ensures var r := CloseWave(c, st, before, wi);
      CorpusDl(r.readings, r.table) <= r.prequential && ReportedDl(r.readings, r.table) <= r.prequential
  {
    hide Grown, StatsOf, ReadingDl;
    ReadingsDlConcat(st.readings[..before], st.readings[before..], st.table);
    assert st.readings[..before] + st.readings[before..] == st.readings;
    assert MiningCorpus(c, st.readings) == st.readings;
    ExogenousKept(st.readings);
    GrowthPays(st.table, st.readings, true, c.mine);
  }
}
