/** The generator library under its description-length gate: chain lengths and totals of
    `buildloop/mdl.py`, and the register-then-retire tail of `buildloop/admission.py`. */
module Mdl {
  import opened Wrappers

  const UNCOVERED_PENALTY: real := 50.0

  type Pos = n: int | n > 0 witness 1

  datatype Out = Out(language: string, atoms: seq<string>)

  /** What the generator hash is taken of; `rest` stands for entrypoint and contract. */
  datatype Body = Body(name: string, specLanguage: string, outputLanguage: string, atoms: seq<string>,
                       output: Option<Out>, rest: string)

  /** A generator; `bytes` is the length of its canonical description. */
  datatype Gen = Gen(body: Body, bytes: Pos, tier: string)

  datatype Row = Row(gen: Gen, retired: bool)

  datatype Spec = Spec(language: string, atoms: seq<string>, size: nat)

  function Atoms(atoms: seq<string>): set<string> {
    set a | a in atoms
  }

  // ---------------------------------------------------------------- chains

  predicate Covers(g: Gen, language: string, atoms: seq<string>) {
    g.body.specLanguage == language && Atoms(atoms) <= Atoms(g.body.atoms)
  }

  predicate IsCodec(g: Gen) {
    g.body.outputLanguage == "python-codec"
  }

  ghost predicate Direct(gens: seq<Gen>, language: string, atoms: seq<string>) {
    exists g :: g in gens && Covers(g, language, atoms) && IsCodec(g)
  }

  predicate Links(g1: Gen, g2: Gen) {
    g1.body.output.Some? && IsCodec(g2) && Covers(g2, g1.body.output.value.language, g1.body.output.value.atoms)
  }

  ghost predicate InTwo(gens: seq<Gen>, language: string, atoms: seq<string>) {
    exists g1, g2 :: g1 in gens && g2 in gens && Covers(g1, language, atoms) && Links(g1, g2)
  }

  /** The length of the shortest chain, if there is one. */
  ghost function ChainLength(gens: seq<Gen>, language: string, atoms: seq<string>): Option<nat> {
    if Direct(gens, language, atoms) then Some(1) else if InTwo(gens, language, atoms) then Some(2) else None
  }

  method ChainLengthFor(gens: seq<Gen>, language: string, atoms: seq<string>) returns (best: Option<nat>)
    ensures best == ChainLength(gens, language, atoms)
  {
    hide Covers, IsCodec, Links;
    best := None;
    for i := 0 to |gens|
      invariant best == if Direct(gens[..i], language, atoms) then Some(1) else None
    {
      assert gens[..i + 1] == gens[..i] + [gens[i]];
      if Covers(gens[i], language, atoms) && IsCodec(gens[i]) {
        best := Some(1);
      }
    }
    assert gens[..|gens|] == gens;
    if best == Some(1) {
      return;
    }
    for i := 0 to |gens|
      invariant best.None? && forall k, j | 0 <= k < i && 0 <= j < |gens| ::
        !(Covers(gens[k], language, atoms) && Links(gens[k], gens[j]))
    {
      var linked := SecondLink(gens, gens[i]);
      if Covers(gens[i], language, atoms) && linked {
        return Some(2);
      }
    }
  }

  /** The inner loop: is there a codec generator behind `g`? */
  method SecondLink(gens: seq<Gen>, g: Gen) returns (found: bool)
    ensures found <==> exists j :: 0 <= j < |gens| && Links(g, gens[j])
  {
    hide Links;
    for j := 0 to |gens|
      invariant forall k | 0 <= k < j :: !Links(g, gens[k])
    {
      if Links(g, gens[j]) {
        return true;
      }
    }
    found := false;
  }

  // ---------------------------------------------------------------- totals

  function GeneratorDl(g: Gen): real {
    g.bytes as real / 64.0
  }

  function GenCost(gens: seq<Gen>): real {
    if gens == [] then 0.0 else GenCost(gens[..|gens| - 1]) + GeneratorDl(gens[|gens| - 1])
  }

  ghost function SpecDl(gens: seq<Gen>, s: Spec): real {
    var length := ChainLength(gens, s.language, s.atoms);
    if length.None? then UNCOVERED_PENALTY else length.value as real + s.size as real / 256.0
  }

  ghost function SpecCost(gens: seq<Gen>, backlog: seq<Spec>): real {
    if backlog == [] then 0.0 else SpecCost(gens, backlog[..|backlog| - 1]) + SpecDl(gens, backlog[|backlog| - 1])
  }

  ghost function Reached(gens: seq<Gen>, backlog: seq<Spec>): nat {
    if backlog == [] then 0
    else
      var s := backlog[|backlog| - 1];
      Reached(gens, backlog[..|backlog| - 1]) + if ChainLength(gens, s.language, s.atoms).Some? then 1 else 0
  }

  ghost function Total(gens: seq<Gen>, backlog: seq<Spec>): real {
    GenCost(gens) + SpecCost(gens, backlog)
  }

  method TotalDl(gens: seq<Gen>, backlog: seq<Spec>) returns (total: real, covered: nat)
    ensures total == Total(gens, backlog) && covered == Reached(gens, backlog)
  {
    hide ChainLength;
    var genCost, specCost := 0.0, 0.0;
    for i := 0 to |gens|
      invariant genCost == GenCost(gens[..i])
    {
      assert gens[..i + 1][..i] == gens[..i];
      genCost := genCost + GeneratorDl(gens[i]);
    }
    assert gens[..|gens|] == gens;
    covered := 0;
    for i := 0 to |backlog|
      invariant specCost == SpecCost(gens, backlog[..i]) && covered == Reached(gens, backlog[..i])
    {
      assert backlog[..i + 1][..i] == backlog[..i];
      var length := ChainLengthFor(gens, backlog[i].language, backlog[i].atoms);
      if length.None? {
        specCost := specCost + UNCOVERED_PENALTY;
      } else {
        covered := covered + 1;
        specCost := specCost + (length.value as real + backlog[i].size as real / 256.0);
      }
    }
    assert backlog[..|backlog|] == backlog;
    total := genCost + specCost;
  }

  datatype Decision = Decision(admit: bool, expansion: bool, before: real, after: real)

  ghost function Decided(live: seq<Gen>, candidate: Gen, backlog: seq<Spec>): Decision {
    var before, after := Total(live, backlog), Total(live + [candidate], backlog);
    var newly := Reached(live + [candidate], backlog) > Reached(live, backlog);
    Decision(after < before || newly, !(after < before) && newly, before, after)
  }

  method AdmissionDecision(live: seq<Gen>, candidate: Gen, backlog: seq<Spec>) returns (decision: Decision)
    ensures decision == Decided(live, candidate, backlog)
  {
    hide Total, Reached;
    var before, coveredBefore := TotalDl(live, backlog);
    var after, coveredAfter := TotalDl(live + [candidate], backlog);
    var admit, expansion := after < before, false;
    if !admit && coveredAfter > coveredBefore {
      admit, expansion := true, true;
    }
    decision := Decision(admit, expansion, before, after);
  }

  // ---------------------------------------------------------------- registering and retiring

  predicate Subsumes(new': Gen, g: Gen) {
    && g.body != new'.body
    && g.body.specLanguage == new'.body.specLanguage && g.body.outputLanguage == new'.body.outputLanguage
    && g.body.output == new'.body.output
    && Atoms(g.body.atoms) < Atoms(new'.body.atoms)
    && g.tier != "universal"
  }

  function Live(rows: seq<Row>): seq<Gen> {
    if rows == [] then []
    else
      var row := rows[|rows| - 1];
      Live(rows[..|rows| - 1]) + if row.retired then [] else [row.gen]
  }

  function Subsumed(live: seq<Gen>, new': Gen): seq<Gen> {
    if live == [] then []
    else
      var g := live[|live| - 1];
      Subsumed(live[..|live| - 1], new') + if Subsumes(new', g) then [g] else []
  }

  method FindSubsumed(live: seq<Gen>, new': Gen) returns (out: seq<Gen>)
    ensures out == Subsumed(live, new')
  {
    hide Subsumes;
    out := [];
    for i := 0 to |live|
      invariant out == Subsumed(live[..i], new')
    {
      assert live[..i + 1][..i] == live[..i];
      if Subsumes(new', live[i]) {
        out := out + [live[i]];
      }
    }
    assert live[..|live|] == live;
  }

  /** INSERT OR REPLACE: a row with the same hash goes, and the new one is live. */
  function Registered(rows: seq<Row>, g: Gen): seq<Row> {
    Without(rows, g.body) + [Row(g, false)]
  }

  function Without(rows: seq<Row>, body: Body): seq<Row> {
    if rows == [] then []
    else
      var row := rows[|rows| - 1];
      Without(rows[..|rows| - 1], body) + if row.gen.body == body then [] else [row]
  }

  function RetiredRows(rows: seq<Row>, gone: set<Body>): seq<Row> {
    if rows == [] then []
    else
      var row := rows[|rows| - 1];
      RetiredRows(rows[..|rows| - 1], gone) + [Row(row.gen, row.retired || row.gen.body in gone)]
  }

  function Bodies(gens: seq<Gen>): set<Body> {
    set g | g in gens :: g.body
  }

  /** The rows behind an admission. `stored` is the candidate with its build artifacts recorded. */
  function Admitted(rows: seq<Row>, stored: Gen): seq<Row> {
    var registered := Registered(rows, stored);
    RetiredRows(registered, Bodies(Subsumed(Live(registered), stored)))
  }

  /** The hash is the key of the table. */
  ghost predicate OnePerBody(rows: seq<Row>) {
    forall i, j | 0 <= i < j < |rows| :: rows[i].gen.body != rows[j].gen.body
  }

  class Registry {
    var rows: seq<Row>

    constructor ()
      ensures rows == [] && OnePerBody(rows)
    {
      rows := [];
    }

    method LiveGenerators() returns (live: seq<Gen>)
      ensures live == Live(rows)
    {
      live := [];
      for i := 0 to |rows|
        invariant live == Live(rows[..i])
      {
        assert rows[..i + 1][..i] == rows[..i];
        if !rows[i].retired {
          live := live + [rows[i].gen];
        }
      }
      assert rows[..|rows|] == rows;
    }

    method Register(g: Gen)
      modifies this
      ensures rows == Registered(old(rows), g)
    {
      var kept := [];
      for i := 0 to |rows|
        invariant rows == old(rows) && kept == Without(rows[..i], g.body)
      {
        assert rows[..i + 1][..i] == rows[..i];
        if rows[i].gen.body != g.body {
          kept := kept + [rows[i]];
        }
      }
      assert rows[..|rows|] == rows;
      rows := kept + [Row(g, false)];
    }

    method Retire(body: Body)
      modifies this
      ensures rows == RetiredRows(old(rows), {body})
    {
      var marked := [];
      for i := 0 to |rows|
        invariant rows == old(rows) && marked == RetiredRows(rows[..i], {body})
      {
        assert rows[..i + 1][..i] == rows[..i];
        marked := marked + [Row(rows[i].gen, rows[i].retired || rows[i].gen.body == body)];
      }
      assert rows[..|rows|] == rows;
      rows := marked;
    }

    /** The tail of `admit`, behind the kernel's vetting: gate, register, retire what is subsumed. */
    method Admit(candidate: Gen, stored: Gen, backlog: seq<Spec>) returns (decision: Decision, retired: seq<Gen>)
      requires stored.body == candidate.body
      modifies this
      ensures decision == Decided(Live(old(rows)), candidate, backlog)
      ensures rows == if decision.admit then Admitted(old(rows), stored) else old(rows)
      ensures retired == if decision.admit then Subsumed(Live(Registered(old(rows), stored)), stored) else []
    {
      hide Subsumed, Decided, Live, Registered;
      retired := [];
      var live := LiveGenerators();
      decision := AdmissionDecision(live, candidate, backlog);
      if decision.admit {
        Register(stored);
        ghost var registered := rows;
        var now := LiveGenerators();
        retired := FindSubsumed(now, stored);
        NoneRetired(rows);
        for i := 0 to |retired|
          invariant rows == RetiredRows(registered, Bodies(retired[..i]))
        {
          Retire(retired[i].body);
          RetireMore(registered, Bodies(retired[..i]), retired[i].body);
          assert Bodies(retired[..i + 1]) == Bodies(retired[..i]) + {retired[i].body};
        }
        assert retired[..|retired|] == retired;
      }
    }
  }

  lemma {:induction false} NoneRetired(rows: seq<Row>)
    ensures RetiredRows(rows, Bodies([])) == rows
  {
    if rows != [] {
      var n := |rows| - 1;
      NoneRetired(rows[..n]);
      assert rows == rows[..n] + [rows[n]];
    }
  }

  lemma {:induction false} RetireMore(rows: seq<Row>, gone: set<Body>, body: Body)
    ensures RetiredRows(RetiredRows(rows, gone), {body}) == RetiredRows(rows, gone + {body})
  {
    if rows != [] {
      var n := |rows| - 1;
      RetireMore(rows[..n], gone, body);
      var marked := RetiredRows(rows, gone);
      assert marked[..|marked| - 1] == RetiredRows(rows[..n], gone);
    }
  }
}
