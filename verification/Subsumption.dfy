/** What admitting and retiring does to the reach and the description length of the library. */
module Subsumption {
  import opened Mdl
  import opened Wrappers

  /** Wherever there was a chain, there is one that is no longer. */
  predicate NoLonger(new': Option<nat>, before: Option<nat>) {
    before.Some? ==> new'.Some? && new'.value <= before.value
  }

  /** The generator takes specs of the language with these atoms, and perhaps more. */
  predicate Takes(g: Gen, language: string, atoms: seq<string>) {
    g.body.specLanguage == language && forall a | a in atoms :: a in g.body.atoms
  }

  /** WHAT A CHAIN IS: a codec that takes the spec; or else a generator that takes it and declares an output
      which a codec takes. */
  lemma ChainsAre(gens: seq<Gen>, language: string, atoms: seq<string>)
    ensures var one := exists g :: g in gens && Takes(g, language, atoms) && g.body.outputLanguage == "python-codec";
      var two := exists g, codec :: g in gens && codec in gens && Takes(g, language, atoms) && Feeds(g, codec);
      ChainLength(gens, language, atoms) == if one then Some(1) else if two then Some(2) else None
  {
    forall g ensures Covers(g, language, atoms) <==> Takes(g, language, atoms) {
      TakesCovers(g, language, atoms);
    }
    forall g, codec ensures Links(g, codec) <==> Feeds(g, codec) {
      if g.body.output.Some? {
        TakesCovers(codec, g.body.output.value.language, g.body.output.value.atoms);
      }
    }
    hide Covers, Takes, Links, Feeds;
  }

  predicate Feeds(g: Gen, codec: Gen) {
    match g.body.output
    case Some(out) => Takes(codec, out.language, out.atoms) && codec.body.outputLanguage == "python-codec"
    case None => false
  }

  lemma TakesCovers(g: Gen, language: string, atoms: seq<string>)
    ensures Covers(g, language, atoms) <==> Takes(g, language, atoms)
  {
    if Takes(g, language, atoms) {
      forall a | a in Atoms(atoms) ensures a in Atoms(g.body.atoms) {
      }
    }
    if Covers(g, language, atoms) {
      forall a | a in atoms ensures a in g.body.atoms {
        assert a in Atoms(atoms);
      }
    }
  }

  /** WHAT A NEW GENERATOR RETIRES: the live ones of another hash with its languages and its output, whose
      atoms it has and more, unless they are universal. */
  lemma {:induction false} SubsumedAre(live: seq<Gen>, new': Gen, g: Gen)
    ensures g in Subsumed(live, new') <==>
      && g in live && g.body != new'.body && g.tier != "universal"
      && g.body.specLanguage == new'.body.specLanguage && g.body.outputLanguage == new'.body.outputLanguage
      && g.body.output == new'.body.output
      && (forall a | a in g.body.atoms :: a in new'.body.atoms) && (exists a :: a in new'.body.atoms && a !in g.body.atoms)
  {
    if live != [] {
      var init, last := live[..|live| - 1], live[|live| - 1];
      assert live == init + [last];
      SubsumedAre(init, new', g);
      assert Atoms(g.body.atoms) < Atoms(new'.body.atoms) <==>
        (forall a | a in g.body.atoms :: a in new'.body.atoms) && (exists a :: a in new'.body.atoms && a !in g.body.atoms) by {
        StrictlyFewer(g.body.atoms, new'.body.atoms);
      }
    }
  }

  lemma StrictlyFewer(a: seq<string>, b: seq<string>)
    ensures Atoms(a) < Atoms(b) <==> (forall x | x in a :: x in b) && (exists x :: x in b && x !in a)
  {
    if Atoms(a) < Atoms(b) {
      var x :| x in Atoms(b) && x !in Atoms(a);
      forall y | y in a ensures y in b {
        assert y in Atoms(a);
      }
    }
    if (forall x | x in a :: x in b) && (exists x :: x in b && x !in a) {
      var x :| x in b && x !in a;
      assert x in Atoms(b) && x !in Atoms(a);
    }
  }

  lemma MoreGenerators(gens: seq<Gen>, more: seq<Gen>, language: string, atoms: seq<string>)
    requires forall g | g in gens :: g in more
    ensures NoLonger(ChainLength(more, language, atoms), ChainLength(gens, language, atoms))
  {
    hide Covers, IsCodec, Links;
  }

  /** A generator can be replaced in any chain by one that subsumes it. */
  lemma Replaces(new': Gen, g: Gen, h: Gen, language: string, atoms: seq<string>)
    requires Subsumes(new', g)
    ensures Covers(g, language, atoms) ==> Covers(new', language, atoms)
    ensures IsCodec(g) ==> IsCodec(new')
    ensures (Links(g, h) ==> Links(new', h)) && (Links(h, g) ==> Links(h, new'))
  {
  }

  /** RETIRING LOSES NOTHING: dropping subsumed generators changes no chain length at all. */
  lemma SameChains(live: seq<Gen>, kept: seq<Gen>, new': Gen, language: string, atoms: seq<string>)
    requires new' in kept && (forall g | g in kept :: g in live)
    requires forall g | g in live :: g in kept || Subsumes(new', g)
    ensures ChainLength(kept, language, atoms) == ChainLength(live, language, atoms)
  {
    hide Covers, IsCodec, Links, Subsumes;
    if Direct(live, language, atoms) {
      var g :| g in live && Covers(g, language, atoms) && IsCodec(g);
      if g !in kept {
        Replaces(new', g, g, language, atoms);
      }
    } else if InTwo(live, language, atoms) {
      var g1, g2 :| g1 in live && g2 in live && Covers(g1, language, atoms) && Links(g1, g2);
      var k1, k2 := if g1 in kept then g1 else new', if g2 in kept then g2 else new';
      if g1 !in kept {
        Replaces(new', g1, g2, language, atoms);
      }
      if g2 !in kept {
        Replaces(new', g2, k1, language, atoms);
      }
      assert Covers(k1, language, atoms) && Links(k1, k2);
    }
  }

  // ---------------------------------------------------------------- the rows

  lemma {:induction false} LiveOf(rows: seq<Row>, g: Gen)
    ensures g in Live(rows) <==> Row(g, false) in rows
  {
    if rows != [] {
      var n := |rows| - 1;
      LiveOf(rows[..n], g);
      assert rows == rows[..n] + [rows[n]];
    }
  }

  lemma {:induction false} WithoutOf(rows: seq<Row>, body: Body)
    ensures forall row :: row in Without(rows, body) <==> row in rows && row.gen.body != body
  {
    if rows != [] {
      var n := |rows| - 1;
      WithoutOf(rows[..n], body);
      assert rows == rows[..n] + [rows[n]];
    }
  }

  lemma {:induction false} WithoutOnePerBody(rows: seq<Row>, body: Body)
    requires OnePerBody(rows)
    ensures OnePerBody(Without(rows, body))
  {
    if rows != [] {
      var n := |rows| - 1;
      WithoutOnePerBody(rows[..n], body);
      WithoutOf(rows[..n], body);
      var kept := Without(rows[..n], body);
      forall i | 0 <= i < |kept| ensures kept[i].gen.body != rows[n].gen.body {
        assert kept[i] in rows[..n];
      }
    }
  }

  lemma {:induction false} WithoutLive(rows: seq<Row>, body: Body)
    requires forall g | g in Live(rows) :: g.body != body
    ensures Live(Without(rows, body)) == Live(rows)
  {
    if rows != [] {
      var n := |rows| - 1;
      WithoutLive(rows[..n], body);
      LiveAdds(Without(rows[..n], body), rows[n]);
    }
  }

  lemma LiveAdds(rows: seq<Row>, row: Row)
    ensures Live(rows + [row]) == Live(rows) + if row.retired then [] else [row.gen]
    ensures Live(rows) + [] == Live(rows) && rows + [] == rows
  {
    assert (rows + [row])[..|rows|] == rows;
  }

  lemma RegisteredOf(rows: seq<Row>, g: Gen)
    ensures OnePerBody(rows) ==> OnePerBody(Registered(rows, g))
    ensures (forall h | h in Live(rows) :: h.body != g.body) ==> Live(Registered(rows, g)) == Live(rows) + [g]
    ensures g in Live(Registered(rows, g))
  {
    WithoutOf(rows, g.body);
    LiveAdds(Without(rows, g.body), Row(g, false));
    if OnePerBody(rows) {
      WithoutOnePerBody(rows, g.body);
    }
    if forall h | h in Live(rows) :: h.body != g.body {
      WithoutLive(rows, g.body);
    }
  }

  /** The generators whose hash is not among `gone`. */
  function Keep(gens: seq<Gen>, gone: set<Body>): seq<Gen> {
    if gens == [] then []
    else
      var g := gens[|gens| - 1];
      Keep(gens[..|gens| - 1], gone) + if g.body in gone then [] else [g]
  }

  lemma KeepAdds(gens: seq<Gen>, gone: set<Body>, g: Gen)
    ensures Keep(gens + [g], gone) == Keep(gens, gone) + if g.body in gone then [] else [g]
    ensures Keep(gens, gone) + [] == Keep(gens, gone)
  {
    assert (gens + [g])[..|gens|] == gens;
  }

  lemma {:induction false} LiveRetired(rows: seq<Row>, gone: set<Body>)
    ensures Live(RetiredRows(rows, gone)) == Keep(Live(rows), gone)
  {
    if rows != [] {
      var n := |rows| - 1;
      LiveRetired(rows[..n], gone);
      assert rows == rows[..n] + [rows[n]];
      var marked := Row(rows[n].gen, rows[n].retired || rows[n].gen.body in gone);
      assert RetiredRows(rows, gone) == RetiredRows(rows[..n], gone) + [marked];
      hide Live, Keep, RetiredRows;
      LiveAdds(RetiredRows(rows[..n], gone), marked);
      LiveAdds(rows[..n], rows[n]);
      KeepAdds(Live(rows[..n]), gone, rows[n].gen);
    }
  }

  lemma {:induction false} RetiredStay(rows: seq<Row>, gone: set<Body>)
    ensures |RetiredRows(rows, gone)| == |rows|
    ensures forall i | 0 <= i < |rows| :: RetiredRows(rows, gone)[i].gen == rows[i].gen
  {
    if rows != [] {
      RetiredStay(rows[..|rows| - 1], gone);
    }
  }

  lemma {:induction false} SubsumedOf(live: seq<Gen>, new': Gen)
    ensures forall g :: g in Subsumed(live, new') <==> g in live && Subsumes(new', g)
  {
    hide Subsumes;
    if live != [] {
      var n := |live| - 1;
      SubsumedOf(live[..n], new');
      assert live == live[..n] + [live[n]];
    }
  }

  lemma {:induction false} KeepOf(gens: seq<Gen>, gone: set<Body>)
    ensures forall g :: g in Keep(gens, gone) <==> g in gens && g.body !in gone
  {
    if gens != [] {
      var n := |gens| - 1;
      KeepOf(gens[..n], gone);
      assert gens == gens[..n] + [gens[n]];
    }
  }

  /** A live row is retired exactly if its own generator is subsumed. */
  lemma RetiredMeansSubsumed(rows: seq<Row>, new': Gen, g: Gen)
    requires OnePerBody(rows) && g in Live(rows)
    ensures g.body in Bodies(Subsumed(Live(rows), new')) <==> Subsumes(new', g)
  {
    hide Subsumes;
    SubsumedOf(Live(rows), new');
    LiveOf(rows, g);
    if g.body in Bodies(Subsumed(Live(rows), new')) {
      var h :| h in Subsumed(Live(rows), new') && h.body == g.body;
      LiveOf(rows, h);
      var i :| 0 <= i < |rows| && rows[i] == Row(g, false);
      var j :| 0 <= j < |rows| && rows[j] == Row(h, false);
      assert i == j;
    }
  }

  /** The live generators behind an admission, as members. */
  lemma AdmittedLive(rows: seq<Row>, stored: Gen)
    requires OnePerBody(rows)
    ensures var registered := Live(Registered(rows, stored));
      var kept := Live(Admitted(rows, stored));
      && kept == Keep(registered, Bodies(Subsumed(registered, stored)))
      && stored in kept && (forall g | g in kept :: g in registered)
      && (forall g | g in registered :: g in kept || Subsumes(stored, g))
    ensures OnePerBody(Admitted(rows, stored))
  {
    hide Subsumes, Live;
    var all := Registered(rows, stored);
    RegisteredOf(rows, stored);
    var gone := Bodies(Subsumed(Live(all), stored));
    LiveRetired(all, gone);
    RetiredStay(all, gone);
    KeepOf(Live(all), gone);
    forall g | g in Live(all) ensures g.body in gone <==> Subsumes(stored, g) {
      RetiredMeansSubsumed(all, stored, g);
    }
    NotItself(stored);
  }

  lemma NotItself(g: Gen)
    ensures !Subsumes(g, g)
  {
  }

  // ---------------------------------------------------------------- reach

  /** ADMISSION KEEPS REACH. Whatever is admitted and retired, every (language, atoms) that had a chain
      has one afterwards that is no longer. */
  lemma AdmittedReaches(rows: seq<Row>, stored: Gen, language: string, atoms: seq<string>)
    requires OnePerBody(rows)
    ensures NoLonger(ChainLength(Live(Admitted(rows, stored)), language, atoms), ChainLength(Live(rows), language, atoms))
    ensures ChainLength(Live(Admitted(rows, stored)), language, atoms)
      == ChainLength(Live(Registered(rows, stored)), language, atoms)
  {
    hide Subsumes, ChainLength, Live, Registered, Admitted;
    AdmittedLive(rows, stored);
    SameChains(Live(Registered(rows, stored)), Live(Admitted(rows, stored)), stored, language, atoms);
    ReplacedReaches(rows, stored, language, atoms);
  }

  /** Registering may replace a live row with the same hash, which covers the same. */
  lemma ReplacedReaches(rows: seq<Row>, stored: Gen, language: string, atoms: seq<string>)
    ensures NoLonger(ChainLength(Live(Registered(rows, stored)), language, atoms), ChainLength(Live(rows), language, atoms))
  {
    hide ChainLength, Live, Registered;
    var live, now := Live(rows), Live(Registered(rows, stored));
    forall g | g in live ensures g in now || g.body == stored.body {
      LiveOf(rows, g);
      LiveOf(Registered(rows, stored), g);
      RegisteredHas(rows, stored, g);
    }
    RegisteredOf(rows, stored);
    MoreGenerators(live, now + live, language, atoms);
    SameBodyChains(now + live, now, stored, language, atoms);
  }

  lemma RegisteredHas(rows: seq<Row>, stored: Gen, g: Gen)
    ensures Row(g, false) in rows && g.body != stored.body ==> Row(g, false) in Registered(rows, stored)
  {
    WithoutOf(rows, stored.body);
  }

  /** Chains depend on the hashed fields only. */
  lemma SameBodyChains(all: seq<Gen>, kept: seq<Gen>, stored: Gen, language: string, atoms: seq<string>)
    requires stored in kept && (forall g | g in kept :: g in all)
    requires forall g | g in all :: g in kept || g.body == stored.body
    ensures ChainLength(kept, language, atoms) == ChainLength(all, language, atoms)
  {
    if Direct(all, language, atoms) {
      var g :| g in all && Covers(g, language, atoms) && IsCodec(g);
      assert g in kept || (Covers(stored, language, atoms) && IsCodec(stored));
    } else if InTwo(all, language, atoms) {
      var g1, g2 :| g1 in all && g2 in all && Covers(g1, language, atoms) && Links(g1, g2);
      var k1, k2 := if g1 in kept then g1 else stored, if g2 in kept then g2 else stored;
      assert Covers(k1, language, atoms) && Links(k1, k2);
    }
  }

  /** One candidate that came before the gate, and the backlog it was priced against. */
  datatype Offer = Offer(candidate: Gen, stored: Gen, backlog: seq<Spec>)

  ghost function AfterOffer(rows: seq<Row>, o: Offer): seq<Row> {
    if Decided(Live(rows), o.candidate, o.backlog).admit then Admitted(rows, o.stored) else rows
  }

  ghost function RowsAfter(rows: seq<Row>, offers: seq<Offer>): seq<Row> {
    if offers == [] then rows else AfterOffer(RowsAfter(rows, offers[..|offers| - 1]), offers[|offers| - 1])
  }

  /** REACH IS MONOTONE over any sequence of offers. */
  lemma {:induction false} ReachMonotone(rows: seq<Row>, offers: seq<Offer>, language: string, atoms: seq<string>)
    requires OnePerBody(rows)
    ensures OnePerBody(RowsAfter(rows, offers))
    ensures NoLonger(ChainLength(Live(RowsAfter(rows, offers)), language, atoms), ChainLength(Live(rows), language, atoms))
  {
    hide ChainLength, Live, Admitted, OnePerBody, Decided;
    if offers != [] {
      var n := |offers| - 1;
      ReachMonotone(rows, offers[..n], language, atoms);
      AdmittedReaches(RowsAfter(rows, offers[..n]), offers[n].stored, language, atoms);
      AdmittedLive(RowsAfter(rows, offers[..n]), offers[n].stored);
    }
  }

  // ---------------------------------------------------------------- description length

  ghost predicate SameLengths(a: seq<Gen>, b: seq<Gen>) {
    forall language, atoms :: ChainLength(a, language, atoms) == ChainLength(b, language, atoms)
  }

  lemma {:induction false} SameSpecCost(a: seq<Gen>, b: seq<Gen>, backlog: seq<Spec>)
    requires SameLengths(a, b)
    ensures SpecCost(a, backlog) == SpecCost(b, backlog) && Reached(a, backlog) == Reached(b, backlog)
  {
    hide ChainLength;
    if backlog != [] {
      SameSpecCost(a, b, backlog[..|backlog| - 1]);
    }
  }

  lemma SubsumedAdds(gens: seq<Gen>, new': Gen, g: Gen)
    ensures Subsumed(gens + [g], new') == Subsumed(gens, new') + if Subsumes(new', g) then [g] else []
    ensures Subsumed(gens, new') + [] == Subsumed(gens, new')
  {
    hide Subsumes;
    assert (gens + [g])[..|gens|] == gens;
  }

  lemma {:induction false} CostSplits(gens: seq<Gen>, new': Gen, gone: set<Body>)
    requires forall g | g in gens :: g.body in gone <==> Subsumes(new', g)
    ensures GenCost(gens) == GenCost(Keep(gens, gone)) + GenCost(Subsumed(gens, new'))
  {
    if gens != [] {
      hide Subsumes, GeneratorDl, GenCost, Keep, Subsumed;
      var init, g := gens[..|gens| - 1], gens[|gens| - 1];
      assert gens == init + [g];
      CostSplits(init, new', gone);
      CostAdds(init, g);
      KeepAdds(init, gone, g);
      SubsumedAdds(init, new', g);
      CostAdds(Keep(init, gone), g);
      CostAdds(Subsumed(init, new'), g);
    }
  }

  lemma CostAdds(gens: seq<Gen>, g: Gen)
    ensures GenCost(gens + [g]) == GenCost(gens) + GeneratorDl(g)
  {
    assert (gens + [g])[..|gens|] == gens;
  }

  lemma {:induction false} CostPositive(gens: seq<Gen>)
    ensures GenCost(gens) >= 0.0 && (gens != [] ==> GenCost(gens) > 0.0)
  {
    if gens != [] {
      CostPositive(gens[..|gens| - 1]);
    }
  }

  /** The gate never admits a second copy of a live generator. */
  lemma AdmittedIsNew(live: seq<Gen>, candidate: Gen, backlog: seq<Spec>, g: Gen)
    requires g in live && g.body == candidate.body
    ensures !Decided(live, candidate, backlog).admit
  {
    hide ChainLength;
    forall language, atoms
      ensures ChainLength(live + [candidate], language, atoms) == ChainLength(live, language, atoms)
    {
      SameBodyChains(live + [candidate], live, g, language, atoms);
    }
    SameSpecCost(live + [candidate], live, backlog);
    CostAdds(live, candidate);
  }

  lemma SameLive(live: seq<Gen>, candidate: Gen, stored: Gen, backlog: seq<Spec>)
    requires candidate.body == stored.body
    ensures Total(live + [stored], backlog)
      == Total(live + [candidate], backlog) + (stored.bytes as real - candidate.bytes as real) / 64.0
    ensures Reached(live + [stored], backlog) == Reached(live + [candidate], backlog)
  {
    hide ChainLength;
    forall language, atoms
      ensures ChainLength(live + [stored], language, atoms) == ChainLength(live + [candidate], language, atoms)
    {
      SameBodyChains(live + [stored, candidate], live + [stored], stored, language, atoms);
      SameBodyChains(live + [stored, candidate], live + [candidate], candidate, language, atoms);
    }
    SameSpecCost(live + [stored], live + [candidate], backlog);
    CostAdds(live, stored);
    CostAdds(live, candidate);
  }

  /** WHAT AN ADMISSION COSTS. The total behind an admission is the one the gate computed, plus what
      recording the build artifacts adds to the stored description, minus the lengths of everything
      retired; and as many specs are covered as the gate counted. So the total falls if and only if the
      gain the gate saw and the retired lengths outweigh the artifacts. */
  lemma AdmissionTotals(rows: seq<Row>, o: Offer)
    requires OnePerBody(rows) && o.stored.body == o.candidate.body
    requires Decided(Live(rows), o.candidate, o.backlog).admit
    ensures var d := Decided(Live(rows), o.candidate, o.backlog);
      var after := Live(Admitted(rows, o.stored));
      var retired := Subsumed(Live(rows) + [o.stored], o.stored);
      var artifacts := (o.stored.bytes as real - o.candidate.bytes as real) / 64.0;
      && Total(after, o.backlog) == d.after + artifacts - GenCost(retired)
      && Reached(after, o.backlog) == Reached(Live(rows) + [o.candidate], o.backlog)
      && (Total(after, o.backlog) < Total(Live(rows), o.backlog) <==> artifacts < d.before - d.after + GenCost(retired))
      && (retired != [] ==> GenCost(retired) > 0.0)
  {
    hide ChainLength, Live, Registered, Admitted, Subsumed, Subsumes, GenCost, SpecCost, Reached;
    var live, candidate, stored := Live(rows), o.candidate, o.stored;
    forall g | g in live ensures g.body != candidate.body {
      if g.body == candidate.body {
        AdmittedIsNew(live, candidate, o.backlog, g);
      }
    }
    RegisteredOf(rows, stored);
    SameLive(live, candidate, stored, o.backlog);
    RetiringCosts(rows, stored, o.backlog);
    CostPositive(Subsumed(live + [stored], stored));
  }

  /** A codec of 3072 bytes that has 3200 with its build artifacts, offered for one spec of size 0. */
  function HeavyOffer(): Offer {
    var codec := Body("codec", "json-subset", "python-codec", ["int"], None, "");
    Offer(Gen(codec, 3072, "kernel"), Gen(codec, 3200, "kernel"), [Spec("json-subset", ["int"], 0)])
  }

  /** AN ADMISSION CAN RAISE THE TOTAL. In the empty library the spec costs 50; the gate sees 49 and admits
      the codec, as a saving and not as an expansion; with the artifacts recorded the total is 51. */
  lemma ArtifactsCanRaiseTotal()
    ensures var o := HeavyOffer();
      && Decided([], o.candidate, o.backlog) == Decision(true, false, 50.0, 49.0)
      && Total(Live(AfterOffer([], o)), o.backlog) == 51.0
  {
    var o := HeavyOffer();
    hide ChainLength, SpecCost, GenCost, Reached, Live, Admitted;
    OneCodec(o.candidate, o.backlog[0]);
    OneCodec(o.stored, o.backlog[0]);
    FirstAdmitted(o.stored);
  }

  /** The totals of an empty library and of one with a single codec, against one spec the codec covers. */
  lemma OneCodec(g: Gen, s: Spec)
    requires Covers(g, s.language, s.atoms) && IsCodec(g)
    ensures Total([], [s]) == UNCOVERED_PENALTY
    ensures Total([g], [s]) == Total([] + [g], [s]) == g.bytes as real / 64.0 + 1.0 + s.size as real / 256.0
  {
    assert [s][..0] == [] && [g][..0] == [] && [] + [g] == [g];
    assert g in [g];
    assert ChainLength([g], s.language, s.atoms) == Some(1) && ChainLength([], s.language, s.atoms) == None;
    assert SpecCost([], []) == SpecCost([g], []) == 0.0 && GenCost([]) == 0.0;
  }

  /** THE PRICES: 64 bytes of a generator cost 1; a spec costs 50 without a chain, and its length and one for
      256 bytes with one. */
  lemma TotalsAre(gens: seq<Gen>, g: Gen, backlog: seq<Spec>, s: Spec)
    ensures Total([], []) == 0.0
    ensures Total(gens + [g], []) == Total(gens, []) + g.bytes as real / 64.0
    ensures Total(gens, backlog + [s]) == Total(gens, backlog)
      + (match ChainLength(gens, s.language, s.atoms)
         case None => 50.0
         case Some(length) => length as real + s.size as real / 256.0)
  {
    hide ChainLength;
    assert (gens + [g])[..|gens|] == gens && (backlog + [s])[..|backlog|] == backlog;
  }

  lemma FirstAdmitted(g: Gen)
    ensures Live([]) == [] && Live(Admitted([], g)) == [g]
  {
    var rows := [Row(g, false)];
    assert rows[..0] == [] && [g][..0] == [];
    assert Registered([], g) == rows && Live(rows) == [g];
    assert Subsumed([g], g) == [];
    assert RetiredRows(rows, Bodies([])) == rows;
    assert Admitted([], g) == rows;
  }

  /** RETIRING PAYS: it lowers the total by exactly the lengths of the retired generators. */
  lemma RetiringCosts(rows: seq<Row>, stored: Gen, backlog: seq<Spec>)
    requires OnePerBody(rows)
    ensures var registered := Live(Registered(rows, stored));
      var after := Live(Admitted(rows, stored));
      && Total(after, backlog) == Total(registered, backlog) - GenCost(Subsumed(registered, stored))
      && Reached(after, backlog) == Reached(registered, backlog)
  {
    hide ChainLength, Live, Registered, Admitted, Subsumed, Subsumes, GenCost, SpecCost, Reached, OnePerBody;
    var all := Registered(rows, stored);
    var registered, after := Live(all), Live(Admitted(rows, stored));
    AdmittedLive(rows, stored);
    forall language, atoms ensures ChainLength(after, language, atoms) == ChainLength(registered, language, atoms) {
      AdmittedReaches(rows, stored, language, atoms);
    }
    SameSpecCost(after, registered, backlog);
    RegisteredOf(rows, stored);
    forall g | g in registered ensures g.body in Bodies(Subsumed(registered, stored)) <==> Subsumes(stored, g) {
      RetiredMeansSubsumed(all, stored, g);
    }
    CostSplits(registered, stored, Bodies(Subsumed(registered, stored)));
  }

  // ---------------------------------------------------------------- what the gate decides

  /** The candidate covers a spec of the backlog that has no chain yet. */
  ghost predicate Opens(live: seq<Gen>, candidate: Gen, s: Spec) {
    ChainLength(live, s.language, s.atoms).None? && ChainLength(live + [candidate], s.language, s.atoms).Some?
  }

  lemma {:induction false} ReachedByMore(live: seq<Gen>, candidate: Gen, backlog: seq<Spec>)
    ensures Reached(live, backlog) <= Reached(live + [candidate], backlog)
    ensures Reached(live, backlog) < Reached(live + [candidate], backlog)
      <==> exists s :: s in backlog && Opens(live, candidate, s)
  {
    hide ChainLength;
    if backlog != [] {
      var init, s := backlog[..|backlog| - 1], backlog[|backlog| - 1];
      assert backlog == init + [s];
      assert s in backlog && forall t :: t in backlog <==> t in init || t == s;
      ReachedByMore(live, candidate, init);
      MoreGenerators(live, live + [candidate], s.language, s.atoms);
      if t :| t in backlog && Opens(live, candidate, t) {
        assert t in init || Opens(live, candidate, s);
      }
      if t :| t in init && Opens(live, candidate, t) {
        assert t in backlog;
      }
    }
  }

  /** THE GATE, EXACTLY. A candidate is admitted if and only if it lowers the total or opens a spec of the
      backlog; the admission is an expansion if and only if it opens one without lowering the total. */
  lemma GateExactly(live: seq<Gen>, candidate: Gen, backlog: seq<Spec>)
    ensures var d := Decided(live, candidate, backlog);
      var lower := Total(live + [candidate], backlog) < Total(live, backlog);
      var opens := exists s :: s in backlog && Opens(live, candidate, s);
      && (d.admit <==> lower || opens) && (d.expansion <==> opens && !lower)
      && d.before == Total(live, backlog) && d.after == Total(live + [candidate], backlog)
  {
    hide Opens, Total, Reached;
    ReachedByMore(live, candidate, backlog);
  }

  /** NO REACH ON OFFER IS DECLINED. Behind an offer a spec of its backlog has a chain if and only if it has
      one with the candidate among the live generators; and an offer that neither lowers the total nor
      opens a spec changes nothing. */
  lemma OfferTaken(rows: seq<Row>, o: Offer, s: Spec)
    requires OnePerBody(rows) && o.stored.body == o.candidate.body && s in o.backlog
    ensures ChainLength(Live(AfterOffer(rows, o)), s.language, s.atoms).Some?
      <==> ChainLength(Live(rows) + [o.candidate], s.language, s.atoms).Some?
  {
    hide ChainLength, Live, Admitted, Registered, OnePerBody, Total, Reached, Subsumed;
    var live := Live(rows);
    MoreGenerators(live, live + [o.candidate], s.language, s.atoms);
    GateExactly(live, o.candidate, o.backlog);
    if Decided(live, o.candidate, o.backlog).admit {
      AdmittedReaches(rows, o.stored, s.language, s.atoms);
      forall g | g in live ensures g.body != o.candidate.body {
        if g.body == o.candidate.body {
          AdmittedIsNew(live, o.candidate, o.backlog, g);
        }
      }
      RegisteredOf(rows, o.stored);
      StoredReaches(live, o, s);
    } else {
      assert Opens(live, o.candidate, s) ==> exists t :: t in o.backlog && Opens(live, o.candidate, t);
    }
  }

  lemma StoredReaches(live: seq<Gen>, o: Offer, s: Spec)
    requires o.stored.body == o.candidate.body
    ensures ChainLength(live + [o.stored], s.language, s.atoms) == ChainLength(live + [o.candidate], s.language, s.atoms)
  {
    hide ChainLength;
    var both := live + [o.stored, o.candidate];
    SameBodyChains(both, live + [o.stored], o.stored, s.language, s.atoms);
    SameBodyChains(both, live + [o.candidate], o.candidate, s.language, s.atoms);
  }

  lemma OfferDeclined(rows: seq<Row>, o: Offer)
    requires Total(Live(rows) + [o.candidate], o.backlog) >= Total(Live(rows), o.backlog)
    requires forall s | s in o.backlog :: !Opens(Live(rows), o.candidate, s)
    ensures AfterOffer(rows, o) == rows
  {
    hide Opens, Total, Live, Reached;
    GateExactly(Live(rows), o.candidate, o.backlog);
  }

  // ---------------------------------------------------------------- expansions

  lemma {:induction false} ReachedMore(a: seq<Gen>, b: seq<Gen>, backlog: seq<Spec>)
    requires forall language, atoms :: NoLonger(ChainLength(b, language, atoms), ChainLength(a, language, atoms))
    ensures Reached(a, backlog) <= Reached(b, backlog) <= |backlog|
  {
    hide ChainLength;
    if backlog != [] {
      ReachedMore(a, b, backlog[..|backlog| - 1]);
    }
  }

  ghost function Expansions(rows: seq<Row>, offers: seq<Offer>): nat {
    if offers == [] then 0
    else
      var n := |offers| - 1;
      var o := offers[n];
      Expansions(rows, offers[..n])
      + if Decided(Live(RowsAfter(rows, offers[..n])), o.candidate, o.backlog).expansion then 1 else 0
  }

  /** EXPANSIONS ARE FEW. Against one backlog a library of any history is expanded at most once for each
      spec that was uncovered at the start: every expansion covers a spec for good. */
  lemma {:induction false} ExpansionsBounded(rows: seq<Row>, offers: seq<Offer>, backlog: seq<Spec>)
    requires OnePerBody(rows)
    requires forall o | o in offers :: o.backlog == backlog && o.stored.body == o.candidate.body
    ensures Reached(Live(rows), backlog) + Expansions(rows, offers)
      <= Reached(Live(RowsAfter(rows, offers)), backlog) <= |backlog|
  {
    hide ChainLength, Live, Admitted, OnePerBody, Reached, Total, Subsumed;
    if offers == [] {
      ReachedMore(Live(rows), Live(rows), backlog);
    } else {
      var n := |offers| - 1;
      var before := RowsAfter(rows, offers[..n]);
      ExpansionsBounded(rows, offers[..n], backlog);
      ReachMonotone(rows, offers[..n], "", []);
      OfferReaches(before, offers[n], backlog);
    }
  }

  lemma OfferReaches(rows: seq<Row>, o: Offer, backlog: seq<Spec>)
    requires OnePerBody(rows) && o.backlog == backlog && o.stored.body == o.candidate.body
    ensures Reached(Live(rows), backlog) + (if Decided(Live(rows), o.candidate, backlog).expansion then 1 else 0)
      <= Reached(Live(AfterOffer(rows, o)), backlog) <= |backlog|
  {
    hide ChainLength, Live, Admitted, OnePerBody, Reached, Total, Subsumed;
    forall language, atoms
      ensures NoLonger(ChainLength(Live(AfterOffer(rows, o)), language, atoms), ChainLength(Live(rows), language, atoms))
    {
      AdmittedReaches(rows, o.stored, language, atoms);
    }
    ReachedMore(Live(rows), Live(AfterOffer(rows, o)), backlog);
    if Decided(Live(rows), o.candidate, backlog).admit {
      AdmissionTotals(rows, o);
    }
  }
}
