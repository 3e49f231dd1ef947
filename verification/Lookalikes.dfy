/** What strings that look like placeholders do to mining in `buildloop/recurrence.py`: windows of two
    statements whose bodies pass the concreteness filter. */
module Lookalikes {
  import opened Order
  import opened Templates
  import opened Rewriting
  import opened AntiUnification
  import opened MinedBodies

  // ---------------------------------------------------------------- the concreteness filter

  /** Of the leaves of a template, how many are concrete, and how many there are. */
  datatype Leafage = Leafage(concrete: nat, total: nat)

  function Plus(a: Leafage, b: Leafage): Leafage {
    Leafage(a.concrete + b.concrete, a.total + b.total)
  }

  /** `_leaf_concreteness` */
  ghost function LeafageOf(t: Json): Leafage
    decreases t, 1, 0
  {
    match t
    case Obj(fields) => FieldsLeafage(t, SortedSet(fields.Keys))
    case Arr(items) => ItemsLeafage(t, |items|)
    case _ => Leafage(if IsParam(t) then 0 else 1, 1)
  }

  ghost function FieldsLeafage(t: Json, keys: seq<string>): Leafage
    requires t.Obj? && forall k | k in keys :: k in t.fields
    decreases t, 0, |keys|
  {
    if keys == [] then Leafage(0, 0)
    else Plus(FieldsLeafage(t, keys[..|keys| - 1]), LeafageOf(t.fields[keys[|keys| - 1]]))
  }

  ghost function ItemsLeafage(t: Json, n: nat): Leafage
    requires t.Arr? && n <= |t.items|
    decreases t, 0, n
  {
    if n == 0 then Leafage(0, 0) else Plus(ItemsLeafage(t, n - 1), LeafageOf(t.items[n - 1]))
  }

  /** `_body_admissible`: no bare placeholder, and at least six in ten leaves of each template concrete. */
  ghost predicate BodyAdmissible(body: seq<Json>) {
    forall t | t in body :: TemplateAdmissible(t)
  }

  ghost predicate TemplateAdmissible(t: Json) {
    var l := LeafageOf(t);
    !IsParam(t) && l.total > 0 && 10 * l.concrete >= 6 * l.total
  }

  // ---------------------------------------------------------------- the statements

  const P0: Json := Str("$p0")
  const P1: Json := Str("$p1")
  const OPEN: Json := Str("open")
  const SHUT: Json := Str("shut")

  /** A lifecycle statement. */
  function Life(initial: Json, states: Json): Json {
    Obj(map["initial" := initial, "kind" := Str("lifecycle"), "states" := states])
  }

  function States(first: Json): Json {
    Arr([first, OPEN, SHUT, Str("void")])
  }

  /** The second statement of every window. */
  const GO: Json := Obj(map["kind" := Str("action"), "name" := Str("go")])

  /** Two windows that differ in their first statements at most. */
  function Two(p: Json, q: Json): seq<seq<Json>> {
    [[p, GO], [q, GO]]
  }

  // ---------------------------------------------------------------- generalizing two values

  /** A value that both windows share stays. */
  lemma Shared(v: Json, memo: Memo)
    ensures Tuples([v, v]) == [] && Differing([v, v]) == {} && Literals([v, v]) == Params(v)
    ensures Generalization([v, v], memo) == v
  {
    assert AllEqual([v, v]);
    hide AllEqual, AllObjects, AllLists, FieldTuples, ItemTuples, SortedSet, Params;
  }

  /** Two strings become a parameter. */
  lemma Apart(s: string, t: string, memo: Memo)
    requires s != t
    ensures var v := [Str(s), Str(t)];
      && Tuples(v) == [v] && Differing(v) == {v} && Literals(v) == {}
      && (v in memo ==> Generalization(v, memo) == Placeholder(memo[v]))
  {
    var v := [Str(s), Str(t)];
    assert v[0] != v[1];
  }

  lemma StatesShape(y: Json, z: Json)
    requires y != z
    ensures var values := [States(y), States(z)];
      && !AllEqual(values) && !AllObjects(values) && AllLists(values) && |values[0].items| == 4
      && ItemAt(values, 0) == [y, z] && ItemAt(values, 1) == [OPEN, OPEN] && ItemAt(values, 2) == [SHUT, SHUT]
      && ItemAt(values, 3) == [Str("void"), Str("void")]
  {
    var values := [States(y), States(z)];
    assert values[0].items[0] != values[1].items[0];
  }

  lemma StatesApart(s: string, t: string, memo: Memo)
    requires s != t
    ensures var v := [Str(s), Str(t)];
      var values := [States(Str(s)), States(Str(t))];
      && Tuples(values) == [v] && Differing(values) == {v} && Literals(values) == {}
      && (v in memo ==> Generalization(values, memo) == States(Placeholder(memo[v])))
  {
    var values := [States(Str(s)), States(Str(t))];
    StatesShape(Str(s), Str(t));
    Apart(s, t, memo);
    Shared(OPEN, memo);
    Shared(SHUT, memo);
    Shared(Str("void"), memo);
    hide States, AllEqual, AllObjects, AllLists;
    StatesTuples(values);
    StatesSets(values);
    StatesGeneral(values, memo);
    assert [[Str(s), Str(t)]] + [] + [] + [] == [[Str(s), Str(t)]];
  }

  lemma StatesTuples(values: seq<Json>)
    requires values != [] && !AllEqual(values) && !AllObjects(values) && AllLists(values) && |values[0].items| == 4
    ensures Tuples(values)
      == Tuples(ItemAt(values, 0)) + Tuples(ItemAt(values, 1)) + Tuples(ItemAt(values, 2)) + Tuples(ItemAt(values, 3))
  {
    hide *;
    TuplesOfItems(values);
    ItemTuplesStep(values, 0);
    ItemTuplesStep(values, 1);
    ItemTuplesStep(values, 2);
    ItemTuplesStep(values, 3);
  }

  lemma TuplesOfItems(values: seq<Json>)
    requires values != [] && !AllEqual(values) && !AllObjects(values) && AllLists(values)
    ensures Tuples(values) == ItemTuples(values, |values[0].items|) && ItemTuples(values, 0) == []
  {
    hide AllEqual, AllObjects, AllLists;
  }

  lemma ItemTuplesStep(values: seq<Json>, n: nat)
    requires values != [] && AllLists(values) && n < |values[0].items|
    ensures ItemTuples(values, n + 1) == ItemTuples(values, n) + Tuples(ItemAt(values, n))
  {
    hide Tuples;
  }

  lemma StatesSets(values: seq<Json>)
    requires values != [] && !AllEqual(values) && !AllObjects(values) && AllLists(values) && |values[0].items| == 4
    ensures Differing(values) == Differing(ItemAt(values, 0)) + Differing(ItemAt(values, 1))
      + Differing(ItemAt(values, 2)) + Differing(ItemAt(values, 3))
    ensures Literals(values) == Literals(ItemAt(values, 0)) + Literals(ItemAt(values, 1))
      + Literals(ItemAt(values, 2)) + Literals(ItemAt(values, 3))
  {
    hide *;
    SetsOfItems(values);
  }

  lemma SetsOfItems(values: seq<Json>)
    requires values != [] && !AllEqual(values) && !AllObjects(values) && AllLists(values)
    ensures forall v :: v in Differing(values) <==> exists i: nat :: i < |values[0].items| && v in Differing(ItemAt(values, i))
    ensures forall p :: p in Literals(values) <==> exists i: nat :: i < |values[0].items| && p in Literals(ItemAt(values, i))
  {
    hide AllEqual, AllObjects, AllLists;
  }

  lemma StatesGeneral(values: seq<Json>, memo: Memo)
    requires values != [] && !AllEqual(values) && !AllObjects(values) && AllLists(values) && |values[0].items| == 4
    ensures Generalization(values, memo)
      == Arr([Generalization(ItemAt(values, 0), memo), Generalization(ItemAt(values, 1), memo),
              Generalization(ItemAt(values, 2), memo), Generalization(ItemAt(values, 3), memo)])
  {
  }

  lemma LifeShape(x1: Json, s1: Json, x2: Json, s2: Json)
    requires x1 != x2
    ensures var values := [Life(x1, s1), Life(x2, s2)];
      && !AllEqual(values) && AllObjects(values) && values[0].fields.Keys == {"initial", "kind", "states"}
      && FieldOf(values, "initial") == [x1, x2] && FieldOf(values, "states") == [s1, s2]
      && FieldOf(values, "kind") == [Str("lifecycle"), Str("lifecycle")]
  {
    hide Life;
    LifeFields(x1, s1);
    LifeFields(x2, s2);
    var values := [Life(x1, s1), Life(x2, s2)];
    assert values[0].fields["initial"] != values[1].fields["initial"];
  }

  lemma LifeFields(x: Json, s: Json)
    ensures var t := Life(x, s);
      && t.Obj? && t.fields.Keys == {"initial", "kind", "states"}
      && t.fields["initial"] == x && t.fields["kind"] == Str("lifecycle") && t.fields["states"] == s
  {
    assert "initial"[0] != "kind"[0] && "initial"[0] != "states"[0] && "kind"[0] != "states"[0];
  }

  lemma FieldTuplesStep(values: seq<Json>, keys: seq<string>, k: string)
    requires values != [] && AllObjects(values) && k in values[0].fields && forall l | l in keys :: l in values[0].fields
    ensures FieldTuples(values, keys + [k]) == FieldTuples(values, keys) + Tuples(FieldOf(values, k))
    ensures FieldTuples(values, []) == []
  {
    hide Tuples;
    assert (keys + [k])[..|keys|] == keys;
  }

  lemma KeysApart()
    ensures "initial" != "kind" && "initial" != "states" && "kind" != "states"
    ensures SortedSet({"initial", "kind", "states"}) == ["initial", "kind", "states"]
  {
    assert "initial"[0] != "kind"[0] && "initial"[0] != "states"[0] && "kind"[0] != "states"[0];
    var keys := ["initial", "kind", "states"];
    assert Le(keys[0], keys[1]) && Le(keys[1], keys[2]) && Le(keys[0], keys[2]);
    SortedSetIs({"initial", "kind", "states"}, keys);
  }

  lemma LifeTuples(x1: Json, s1: Json, x2: Json, s2: Json)
    requires x1 != x2
    ensures Tuples([Life(x1, s1), Life(x2, s2)]) == Tuples([x1, x2]) + Tuples([s1, s2])
  {
    hide *;
    LifeShape(x1, s1, x2, s2);
    KeysApart();
    Shared(Str("lifecycle"), map[]);
    var values := [Life(x1, s1), Life(x2, s2)];
    TuplesOfFields(values);
    FieldTuplesStep(values, [], "initial");
    FieldTuplesStep(values, ["initial"], "kind");
    FieldTuplesStep(values, ["initial", "kind"], "states");
    assert [] + ["initial"] == ["initial"] && ["initial"] + ["kind"] == ["initial", "kind"];
    assert ["initial", "kind"] + ["states"] == ["initial", "kind", "states"];
  }

  lemma LifeSets(x1: Json, s1: Json, x2: Json, s2: Json)
    requires x1 != x2
    ensures Differing([Life(x1, s1), Life(x2, s2)]) == Differing([x1, x2]) + Differing([s1, s2])
    ensures Literals([Life(x1, s1), Life(x2, s2)]) == Literals([x1, x2]) + Literals([s1, s2])
  {
    KindHasNoParams();
    hide *;
    LifeShape(x1, s1, x2, s2);
    Shared(Str("lifecycle"), map[]);
    SetsOfFields([Life(x1, s1), Life(x2, s2)]);
  }

  lemma KindHasNoParams()
    ensures Params(Str("lifecycle")) == {}
  {
  }

  lemma SetsOfFields(values: seq<Json>)
    requires values != [] && !AllEqual(values) && AllObjects(values)
    ensures forall v :: v in Differing(values) <==> exists k :: k in values[0].fields && v in Differing(FieldOf(values, k))
    ensures forall p :: p in Literals(values) <==> exists k :: k in values[0].fields && p in Literals(FieldOf(values, k))
  {
    hide AllEqual, AllLists;
  }

  lemma LifeGeneral(x1: Json, s1: Json, x2: Json, s2: Json, memo: Memo)
    requires x1 != x2
    ensures Generalization([Life(x1, s1), Life(x2, s2)], memo)
      == Life(Generalization([x1, x2], memo), Generalization([s1, s2], memo))
  {
    LifeShape(x1, s1, x2, s2);
    Shared(Str("lifecycle"), memo);
    var values := [Life(x1, s1), Life(x2, s2)];
    var t := Life(Generalization([x1, x2], memo), Generalization([s1, s2], memo));
    LifeFields(Generalization([x1, x2], memo), Generalization([s1, s2], memo));
    GeneralFields(values, memo);
    hide *;
    var g := Generalization(values, memo);
    assert g.fields == t.fields;
  }

  lemma GeneralFields(values: seq<Json>, memo: Memo)
    requires values != [] && !AllEqual(values) && AllObjects(values)
    ensures var g := Generalization(values, memo);
      && g.Obj? && g.fields.Keys == values[0].fields.Keys
      && forall k | k in values[0].fields :: g.fields[k] == Generalization(FieldOf(values, k), memo)
  {
    hide AllEqual, AllLists;
  }

  // ---------------------------------------------------------------- mining two windows

  lemma TwoWindows(p: Json, q: Json)
    ensures Occurrences(Two(p, q)) && |Two(p, q)[0]| == 2
    ensures Column(Two(p, q), 0) == [p, q] && Column(Two(p, q), 1) == [GO, GO]
    ensures p.Obj? && q.Obj? ==> AllForms(Two(p, q))
  {
    var windows := Two(p, q);
    assert windows[0] == [p, GO] && windows[1] == [q, GO];
  }

  lemma TwoMined(p: Json, q: Json)
    ensures var windows := Two(p, q);
      && Occurrences(windows) && MemoOf(windows) == Named(map[], Tuples([p, q]))
      && BodyOf(windows) == [Generalization([p, q], MemoOf(windows)), GO]
      && WindowsDiffering(windows) == Differing([p, q]) && WindowLiterals(windows) == Literals([p, q])
  {
    hide *;
    var windows := Two(p, q);
    TwoWindows(p, q);
    Shared(GO, MemoOf(windows));
    GoHasNoParams();
    ColumnTuplesStep(windows, 0);
    ColumnTuplesStep(windows, 1);
    TwoSets(windows);
    TwoBodies(windows);
    assert [] + Tuples([p, q]) + [] == Tuples([p, q]);
  }

  lemma TwoBodies(windows: seq<seq<Json>>)
    requires Occurrences(windows) && |windows[0]| == 2
    ensures MemoOf(windows) == Named(map[], ColumnTuples(windows, 2))
    ensures BodyOf(windows)
      == [Generalization(Column(windows, 0), MemoOf(windows)), Generalization(Column(windows, 1), MemoOf(windows))]
  {
    hide Generalization, Named, ColumnTuples, Column;
  }

  lemma TwoSets(windows: seq<seq<Json>>)
    requires Occurrences(windows) && |windows[0]| == 2
    ensures WindowsDiffering(windows) == Differing(Column(windows, 0)) + Differing(Column(windows, 1))
    ensures WindowLiterals(windows) == Literals(Column(windows, 0)) + Literals(Column(windows, 1))
  {
    hide Differing, Literals, Column;
  }

  lemma ColumnTuplesStep(windows: seq<seq<Json>>, n: nat)
    requires Occurrences(windows) && n < |windows[0]|
    ensures ColumnTuples(windows, n + 1) == ColumnTuples(windows, n) + Tuples(Column(windows, n))
    ensures ColumnTuples(windows, 0) == []
  {
    hide Tuples;
  }

  lemma GoHasNoParams()
    ensures Params(GO) == {} && GO.Obj?
  {
  }

  /** The names of one tuple and of two. */
  lemma FewNamed(v: seq<Json>, w: seq<Json>)
    requires v != w
    ensures Named(map[], [v]) == map[v := "p0"]
    ensures Named(map[], [v] + [w]) == map[v := "p0", w := "p1"]
    ensures FirstNames(1) == {"p0"} && FirstNames(2) == {"p0", "p1"}
  {
    assert ParamName(0) == "p0" && ParamName(1) == "p1";
    NamedOne(map[], v);
    NamedConcat(map[], [v], [w]);
    NamedOne(map[v := "p0"], w);
    assert |map[v := "p0"]| == |map[v := "p0"].Keys| == 1;
    hide ParamName;
  }

  // ---------------------------------------------------------------- the filter lets the bodies through

  lemma LeafOf(s: string)
    ensures LeafageOf(Str(s)) == Leafage(if IsParam(Str(s)) then 0 else 1, 1)
  {
  }

  lemma StatesLeafage(first: string)
    ensures LeafageOf(States(Str(first))) == Leafage(if IsParam(Str(first)) then 3 else 4, 4)
  {
    var t := States(Str(first));
    assert t.Arr? && |t.items| == 4;
    assert t.items[0] == Str(first) && t.items[1] == OPEN && t.items[2] == SHUT && t.items[3] == Str("void");
    assert OPEN == Str("open") && SHUT == Str("shut") && !IsParam(OPEN) && !IsParam(SHUT) && !IsParam(Str("void"));
    PlusFour(if IsParam(Str(first)) then 0 else 1);
    hide *;
    LeafOf(first);
    LeafOf("open");
    LeafOf("shut");
    LeafOf("void");
    ItemsLeafageStep(t, 0);
    ItemsLeafageStep(t, 1);
    ItemsLeafageStep(t, 2);
    ItemsLeafageStep(t, 3);
  }

  lemma PlusFour(n: nat)
    ensures Plus(Plus(Plus(Plus(Leafage(0, 0), Leafage(n, 1)), Leafage(1, 1)), Leafage(1, 1)), Leafage(1, 1)) == Leafage(n + 3, 4)
  {
  }

  lemma ItemsLeafageStep(t: Json, n: nat)
    requires t.Arr? && n < |t.items|
    ensures ItemsLeafage(t, n + 1) == Plus(ItemsLeafage(t, n), LeafageOf(t.items[n]))
    ensures ItemsLeafage(t, 0) == Leafage(0, 0) && LeafageOf(t) == ItemsLeafage(t, |t.items|)
  {
    hide LeafageOf;
    ArrayLeafage(t);
  }

  lemma ArrayLeafage(t: Json)
    requires t.Arr?
    ensures LeafageOf(t) == ItemsLeafage(t, |t.items|)
  {
    hide ItemsLeafage;
  }

  lemma LifeLeafage(initial: string, states: Json)
    ensures LeafageOf(Life(Str(initial), states))
      == Plus(Leafage(if IsParam(Str(initial)) then 1 else 2, 2), LeafageOf(states))
  {
    assert !IsParam(Str("lifecycle"));
    PlusAll(if IsParam(Str(initial)) then 0 else 1, LeafageOf(states));
    hide *;
    LeafOf(initial);
    LeafOf("lifecycle");
    KeysApart();
    LifeFields(Str(initial), states);
    ThreeFields(Life(Str(initial), states), "initial", "kind", "states");
  }

  lemma ThreeFields(t: Json, k: string, l: string, m: string)
    requires t.Obj? && t.fields.Keys == {k, l, m} && SortedSet({k, l, m}) == [k, l, m]
    ensures LeafageOf(t)
      == Plus(Plus(Plus(Leafage(0, 0), LeafageOf(t.fields[k])), LeafageOf(t.fields[l])), LeafageOf(t.fields[m]))
  {
    hide *;
    assert [] + [k] == [k] && [k] + [l] == [k, l] && [k, l] + [m] == [k, l, m];
    ObjectLeafage(t);
    FieldsLeafageStep(t, [], k);
    FieldsLeafageStep(t, [k], l);
    FieldsLeafageStep(t, [k, l], m);
  }

  lemma PlusAll(n: nat, l: Leafage)
    ensures Plus(Plus(Plus(Leafage(0, 0), Leafage(n, 1)), Leafage(1, 1)), l) == Plus(Leafage(n + 1, 2), l)
  {
  }

  lemma ObjectLeafage(t: Json)
    requires t.Obj?
    ensures LeafageOf(t) == FieldsLeafage(t, SortedSet(t.fields.Keys))
  {
    hide FieldsLeafage, SortedSet;
  }

  lemma FieldsLeafageStep(t: Json, keys: seq<string>, k: string)
    requires t.Obj? && k in t.fields && forall l | l in keys :: l in t.fields
    ensures FieldsLeafage(t, keys + [k]) == Plus(FieldsLeafage(t, keys), LeafageOf(t.fields[k]))
    ensures FieldsLeafage(t, []) == Leafage(0, 0)
  {
    hide LeafageOf;
    assert (keys + [k])[..|keys|] == keys;
  }

  lemma GoAdmissible()
    ensures TemplateAdmissible(GO)
  {
    hide SortedSet, LeafageOf, FieldsLeafage, GO;
    GoKeys();
    ObjectLeafage(GO);
    FieldsLeafageStep(GO, [], "kind");
    FieldsLeafageStep(GO, ["kind"], "name");
    LeafOf("action");
    LeafOf("go");
    assert [] + ["kind"] == ["kind"] && ["kind"] + ["name"] == ["kind", "name"];
  }

  lemma GoKeys()
    ensures GO.Obj? && GO.fields.Keys == {"kind", "name"} && SortedSet({"kind", "name"}) == ["kind", "name"]
    ensures GO.fields["kind"] == Str("action") && GO.fields["name"] == Str("go")
  {
    hide SortedSet;
    assert "kind"[0] != "name"[0];
    KindName();
  }

  lemma KindName()
    ensures SortedSet({"kind", "name"}) == ["kind", "name"]
  {
    hide SortedSet;
    assert "kind"[0] != "name"[0];
    var keys := ["kind", "name"];
    assert Le(keys[0], keys[1]);
    SortedSetIs({"kind", "name"}, keys);
  }

  lemma BodiesAdmissible(first: string)
    ensures BodyAdmissible([Life(P0, States(Str(first))), GO])
  {
    GoAdmissible();
    StatesLeafage(first);
    LifeLeafage("$p0", States(Str(first)));
    LifeFields(P0, States(Str(first)));
    hide LeafageOf, States, GO, Life;
    assert TemplateAdmissible(Life(P0, States(Str(first))));
    hide TemplateAdmissible;
  }

  // ---------------------------------------------------------------- a body that is rejected

  /** Two windows that differ in the initial state alone and share their list of states. */
  function Sharing(first: string): seq<seq<Json>> {
    Two(Life(OPEN, States(Str(first))), Life(SHUT, States(Str(first))))
  }

  /** Two windows that differ in the first listed state as well. */
  const PLAIN: seq<seq<Json>> := Two(Life(OPEN, States(Str("new"))), Life(SHUT, States(Str("old"))))

  const INITIALS: seq<Json> := [OPEN, SHUT]
  const FIRSTS: seq<Json> := [Str("new"), Str("old")]

  lemma Constants()
    ensures INITIALS == [Str("open"), Str("shut")] && "open" != "shut" && "new" != "old" && INITIALS != FIRSTS
    ensures Placeholder("p0") == P0 && Placeholder("p1") == P1
  {
    assert "open"[0] != "shut"[0] && "new"[0] != "old"[0];
    assert INITIALS[0] != FIRSTS[0];
  }

  lemma SharingMined(first: string)
    ensures var windows := Sharing(first);
      && Occurrences(windows) && |windows[0]| == 2 && AllForms(windows)
      && BodyOf(windows) == [Life(P0, States(Str(first))), GO]
      && |WindowsDiffering(windows)| == 1 && WindowLiterals(windows) == Params(States(Str(first)))
  {
    hide *;
    Constants();
    var s := States(Str(first));
    var p, q := Life(Str("open"), s), Life(Str("shut"), s);
    SharingIs(first);
    TwoMined(p, q);
    TwoWindows(p, q);
    LifeFields(Str("open"), s);
    LifeFields(Str("shut"), s);
    LifeTuples(Str("open"), s, Str("shut"), s);
    LifeSets(Str("open"), s, Str("shut"), s);
    var memo: Memo := map[INITIALS := "p0"];
    LifeGeneral(Str("open"), s, Str("shut"), s, memo);
    Apart("open", "shut", memo);
    Shared(s, memo);
    FewNamed(INITIALS, FIRSTS);
    assert [INITIALS] + [] == [INITIALS];
  }

  lemma SharingIs(first: string)
    ensures Sharing(first) == Two(Life(Str("open"), States(Str(first))), Life(Str("shut"), States(Str(first))))
  {
    hide Two, Life, States;
  }

  lemma PlainMined()
    ensures Occurrences(PLAIN) && |PLAIN[0]| == 2 && AllForms(PLAIN)
    ensures BodyOf(PLAIN) == [Life(P0, States(P1)), GO]
    ensures |WindowsDiffering(PLAIN)| == 2 && WindowLiterals(PLAIN) == {}
  {
    hide *;
    Constants();
    var s, t := States(Str("new")), States(Str("old"));
    var p, q := Life(Str("open"), s), Life(Str("shut"), t);
    PlainIs();
    TwoMined(p, q);
    TwoWindows(p, q);
    LifeFields(Str("open"), s);
    LifeFields(Str("shut"), t);
    LifeTuples(Str("open"), s, Str("shut"), t);
    LifeSets(Str("open"), s, Str("shut"), t);
    var memo: Memo := map[INITIALS := "p0", FIRSTS := "p1"];
    LifeGeneral(Str("open"), s, Str("shut"), t, memo);
    Apart("open", "shut", memo);
    StatesApart("new", "old", memo);
    FewNamed(INITIALS, FIRSTS);
  }

  lemma PlainIs()
    ensures PLAIN == Two(Life(Str("open"), States(Str("new"))), Life(Str("shut"), States(Str("old"))))
    ensures FIRSTS == [Str("new"), Str("old")]
  {
    hide Two, Life, States;
  }

  lemma ParamsOfStates(first: string)
    ensures Params(States(Str(first))) == Params(Str(first))
  {
    var t := States(Str(first));
    assert t.items[0] == Str(first) && t.items[1] == OPEN && t.items[2] == SHUT && t.items[3] == Str("void");
  }

  lemma StatesBind(b: Binding)
    ensures Fits(States(P0), States(P0), b) ==> "p0" in b && b["p0"] == P0
  {
    var t := States(P0);
    assert t.items[0] == P0;
    assert Fits(t, t, b) ==> Fits(t.items[0], t.items[0], b);
  }

  lemma FirstFits(body: seq<Json>, lfs: seq<Json>, b: Binding)
    requires |body| == |lfs| > 0
    ensures Fits(Arr(body), Arr(lfs), b) ==> Fits(body[0], lfs[0], b)
  {
  }

  lemma FieldFits(t: Json, c: Json, b: Binding, k: string)
    requires t.Obj? && c.Obj? && k in t.fields && k in c.fields
    ensures Fits(t, c, b) ==> Fits(t.fields[k], c.fields[k], b)
  {
  }

  lemma SharingUnfit(x: Json, b: Binding)
    requires x != P0
    ensures !Fits(Life(P0, States(P0)), Life(x, States(P0)), b)
  {
    var t, c := Life(P0, States(P0)), Life(x, States(P0));
    LifeFields(P0, States(P0));
    LifeFields(x, States(P0));
    StatesBind(b);
    assert Fits(P0, x, b) ==> "p0" in b && b["p0"] == x;
    hide *;
    FieldFits(t, c, b, "initial");
    FieldFits(t, c, b, "states");
  }

  lemma SharingUnmatched(x: Json, m: Macro)
    requires x != P0 && m.body == [Life(P0, States(P0)), GO]
    ensures !Matches(Statements([Life(x, States(P0)), GO]), 0, m)
  {
    hide Life, States, GO;
    var lfs := [Life(x, States(P0)), GO];
    var stmts := Statements(lfs);
    assert Window(stmts, 0, 2) == lfs;
    forall b ensures !IsMatch(stmts, 0, m, b) {
      SharingUnfit(x, b);
      FirstFits(m.body, lfs, b);
    }
  }

  /** A MINED BODY THAT IS REJECTED. Both windows list the state "$p0"; the literal stays in the body, passes
      the concreteness filter, and reads as the parameter that the initial state was given. */
  lemma LookalikeRejected()
    ensures var windows := Sharing("$p0");
      && Occurrences(windows) && |windows[0]| == 2 && AllForms(windows)
      && BodyOf(windows) == [Life(P0, States(P0)), GO] && BodyAdmissible(BodyOf(windows))
      && !NoCollision(windows)
      && forall m: Macro, n | m.body == BodyOf(windows) && 0 <= n < |windows| :: !Matches(Statements(windows[n]), 0, m)
  {
    SharingMined("$p0");
    BodiesAdmissible("$p0");
    ParamsOfStates("$p0");
    Constants();
    assert "p0" in Params(Str("$p0"));
    var windows := Sharing("$p0");
    assert windows[0] == [Life(OPEN, States(P0)), GO] && windows[1] == [Life(SHUT, States(P0)), GO] && |windows| == 2;
    hide Sharing, Life, States, GO, BodyOf, WindowLiterals, WindowsDiffering, BodyAdmissible, Matches, Statements, Params;
    assert "p0" in GeneratedNames(windows) by {
      assert ParamName(0) == "p0";
    }
    forall m: Macro, n | m.body == BodyOf(windows) && 0 <= n < |windows| ensures !Matches(Statements(windows[n]), 0, m) {
      SharingUnmatched(if n == 0 then OPEN else SHUT, m);
    }
  }

  // ---------------------------------------------------------------- one body, two macros

  /** ONE BODY, TWO MACROS. Windows that share the literal "$p1" and windows that differ in its place give
      one body, hence one name. It passes the filter, both sets of windows match it, and the macros have one
      parameter and two. */
  lemma OneBodyTwoMacros()
    ensures var windows, windows' := Sharing("$p1"), PLAIN;
      && Occurrences(windows) && |windows[0]| == 2 && AllForms(windows) && NoCollision(windows)
      && Occurrences(windows') && |windows'[0]| == 2 && AllForms(windows') && NoCollision(windows')
      && BodyOf(windows) == BodyOf(windows') && BodyAdmissible(BodyOf(windows))
      && |WindowsDiffering(windows)| == 1 && |WindowsDiffering(windows')| == 2
  {
    SharingMined("$p1");
    PlainMined();
    BodiesAdmissible("$p1");
    ParamsOfStates("$p1");
    assert "$p1"[1..] == "p1" && Params(Str("$p1")) == {"p1"};
    hide Sharing, PLAIN, Life, States, GO, BodyOf, WindowLiterals, WindowsDiffering, BodyAdmissible, Params;
    assert GeneratedNames(Sharing("$p1")) == {"p0"} by {
      FewNamed(INITIALS, FIRSTS);
      Constants();
    }
  }
}
