/** When a mined body matches what it was mined from: `_verifies` of `buildloop/recurrence.py`. */
module MinedBodies {
  import opened Order
  import opened Templates
  import opened Rewriting
  import opened AntiUnification

  // ---------------------------------------------------------------- literals that look like placeholders

  /** The parameters of a template that data contributes: the "$" strings inside the subtrees that all
      values share. */
  ghost function Literals(values: seq<Json>): set<string>
    requires values != []
    decreases values[0]
  {
    if AllEqual(values) then Params(values[0])
    else if AllObjects(values) then set k, p | k in values[0].fields && p in Literals(FieldOf(values, k)) :: p
    else if AllLists(values) then set i, p | 0 <= i < |values[0].items| && p in Literals(ItemAt(values, i)) :: p
    else {}
  }

  /** Every one of these names is bound to its own placeholder. */
  ghost predicate Literally(ps: set<string>, b: Binding) {
    forall p | p in ps :: p in b && b[p] == Placeholder(p)
  }

  /** Every tuple's name is bound to its n-th value. */
  ghost predicate BindsTuples(ds: set<seq<Json>>, memo: Memo, n: nat, b: Binding) {
    forall v | v in ds :: BindsTuple(v, memo, n, b)
  }

  ghost predicate BindsTuple(v: seq<Json>, memo: Memo, n: nat, b: Binding) {
    v in memo && n < |v| && memo[v] in b && b[memo[v]] == v[n]
  }

  /** A value fits itself exactly if its "$" strings are bound to themselves. */
  lemma {:induction false} LiteralFits(c: Json, b: Binding)
    ensures Fits(c, c, b) <==> Literally(Params(c), b)
  {
    match c
    case Obj(fields) =>
      forall k | k in fields ensures Fits(fields[k], fields[k], b) <==> Literally(Params(fields[k]), b) {
        LiteralFits(fields[k], b);
      }
      assert Literally(Params(c), b) <==> forall k | k in fields :: Literally(Params(fields[k]), b) by {
        forall p | p in Params(c) ensures exists k :: k in fields && p in Params(fields[k]) {
        }
        forall k, p | k in fields && p in Params(fields[k]) ensures p in Params(c) {
        }
      }
    case Arr(items) =>
      forall i | 0 <= i < |items| ensures Fits(items[i], items[i], b) <==> Literally(Params(items[i]), b) {
        LiteralFits(items[i], b);
      }
      assert Literally(Params(c), b) <==> forall i | 0 <= i < |items| :: Literally(Params(items[i]), b) by {
        forall p | p in Params(c) ensures exists i :: 0 <= i < |items| && p in Params(items[i]) {
        }
        forall i, p | 0 <= i < |items| && p in Params(items[i]) ensures p in Params(c) {
        }
      }
    case Str(s) =>
      if IsParam(c) {
        assert "$" + s[1..] == s;
        assert c == Placeholder(s[1..]);
      }
    case _ =>
  }

  /** What it takes for the n-th value to fit its generalization. */
  ghost predicate FitsAt(values: seq<Json>, memo: Memo, n: nat, b: Binding)
    requires values != []
  {
    Literally(Literals(values), b) && BindsTuples(Differing(values), memo, n, b)
  }

  lemma FieldsFitAt(values: seq<Json>, memo: Memo, n: nat, b: Binding)
    requires values != [] && !AllEqual(values) && AllObjects(values)
    ensures FitsAt(values, memo, n, b) <==> forall k | k in values[0].fields :: FitsAt(FieldOf(values, k), memo, n, b)
  {
    hide BindsTuple;
    if forall k | k in values[0].fields :: FitsAt(FieldOf(values, k), memo, n, b) {
      forall p | p in Literals(values) ensures p in b && b[p] == Placeholder(p) {
        var k :| k in values[0].fields && p in Literals(FieldOf(values, k));
        assert FitsAt(FieldOf(values, k), memo, n, b);
      }
      forall v | v in Differing(values) ensures BindsTuple(v, memo, n, b) {
        var k :| k in values[0].fields && v in Differing(FieldOf(values, k));
        assert FitsAt(FieldOf(values, k), memo, n, b);
      }
    }
    if FitsAt(values, memo, n, b) {
      forall k | k in values[0].fields ensures FitsAt(FieldOf(values, k), memo, n, b) {
        assert forall p | p in Literals(FieldOf(values, k)) :: p in Literals(values);
        assert forall v | v in Differing(FieldOf(values, k)) :: v in Differing(values);
      }
    }
  }

  lemma ItemsFitAt(values: seq<Json>, memo: Memo, n: nat, b: Binding)
    requires values != [] && !AllEqual(values) && !AllObjects(values) && AllLists(values)
    ensures FitsAt(values, memo, n, b)
      <==> forall i | 0 <= i < |values[0].items| :: FitsAt(ItemAt(values, i), memo, n, b)
  {
    hide BindsTuple;
    if forall i | 0 <= i < |values[0].items| :: FitsAt(ItemAt(values, i), memo, n, b) {
      forall p | p in Literals(values) ensures p in b && b[p] == Placeholder(p) {
        var i :| 0 <= i < |values[0].items| && p in Literals(ItemAt(values, i));
        assert FitsAt(ItemAt(values, i), memo, n, b);
      }
      forall v | v in Differing(values) ensures BindsTuple(v, memo, n, b) {
        var i :| 0 <= i < |values[0].items| && v in Differing(ItemAt(values, i));
        assert FitsAt(ItemAt(values, i), memo, n, b);
      }
    }
    if FitsAt(values, memo, n, b) {
      forall i | 0 <= i < |values[0].items| ensures FitsAt(ItemAt(values, i), memo, n, b) {
        assert forall p | p in Literals(ItemAt(values, i)) :: p in Literals(values);
        assert forall v | v in Differing(ItemAt(values, i)) :: v in Differing(values);
      }
    }
  }

  /** A value fits the generalization exactly if the literals are bound to themselves and the tuples'
      names to its own part of the tuples. */
  lemma {:induction false} GeneralizationFits(values: seq<Json>, t: Json, memo: Memo, n: nat, b: Binding)
    requires values != [] && Generalizes(values, t, memo) && n < |values|
    ensures Fits(t, values[n], b) <==> FitsAt(values, memo, n, b)
    decreases values[0]
  {
    if AllEqual(values) {
      LiteralFits(t, b);
    } else if AllObjects(values) {
      FieldsFitAt(values, memo, n, b);
      hide FitsAt;
      forall k | k in values[0].fields
        ensures Fits(t.fields[k], values[n].fields[k], b) <==> FitsAt(FieldOf(values, k), memo, n, b)
      {
        GeneralizationFits(FieldOf(values, k), t.fields[k], memo, n, b);
      }
    } else if AllLists(values) {
      ItemsFitAt(values, memo, n, b);
      hide FitsAt;
      forall i | 0 <= i < |values[0].items|
        ensures Fits(t.items[i], values[n].items[i], b) <==> FitsAt(ItemAt(values, i), memo, n, b)
      {
        GeneralizationFits(ItemAt(values, i), t.items[i], memo, n, b);
      }
    } else {
      assert t.s[1..] == memo[values];
      assert Differing(values) == {values};
    }
  }

  /** Tuples differ somewhere. */
  lemma {:induction false} TuplesDiffer(values: seq<Json>, v: seq<Json>)
    requires values != [] && v in Differing(values)
    ensures |v| == |values| && !AllEqual(v)
    decreases values[0]
  {
    if AllEqual(values) {
    } else if AllObjects(values) {
      var k :| k in values[0].fields && v in Differing(FieldOf(values, k));
      TuplesDiffer(FieldOf(values, k), v);
    } else if AllLists(values) {
      var i :| 0 <= i < |values[0].items| && v in Differing(ItemAt(values, i));
      TuplesDiffer(ItemAt(values, i), v);
    }
  }

  // ---------------------------------------------------------------- windows

  ghost function WindowLiterals(occurrences: seq<seq<Json>>): set<string>
    requires Occurrences(occurrences)
  {
    set j, p | 0 <= j < |occurrences[0]| && p in Literals(Column(occurrences, j)) :: p
  }

  /** The names p0, p1, ... of as many parameters as there are differing tuples. */
  ghost function GeneratedNames(occurrences: seq<seq<Json>>): set<string>
    requires Occurrences(occurrences)
  {
    set n: nat | n < |WindowsDiffering(occurrences)| :: ParamName(n)
  }

  /** No "$" literal that all windows share reads as a name the mining generates. The windows alone
      decide this, before anything is mined. */
  ghost predicate NoCollision(occurrences: seq<seq<Json>>)
    requires Occurrences(occurrences)
  {
    WindowLiterals(occurrences) !! GeneratedNames(occurrences)
  }

  predicate OnlyForms(lfs: seq<Json>) {
    forall j | 0 <= j < |lfs| :: lfs[j].Obj?
  }

  ghost predicate AllForms(occurrences: seq<seq<Json>>) {
    forall n | 0 <= n < |occurrences| :: OnlyForms(occurrences[n])
  }

  lemma NamesAreGenerated(occurrences: seq<seq<Json>>, body: seq<Json>, params: seq<string>, memo: Memo)
    requires Occurrences(occurrences) && Mined(occurrences, body, params, memo)
    ensures memo.Values == GeneratedNames(occurrences)
  {
    hide ParamName, Generalizes, WindowsDiffering, Params;
    assert |memo| == |memo.Keys|;
    forall p | p in memo.Values ensures p in GeneratedNames(occurrences) {
      var v :| v in memo && memo[v] == p;
      assert IsName(memo[v], |memo|);
    }
  }

  ghost predicate WindowFitsAt(occurrences: seq<seq<Json>>, memo: Memo, n: nat, b: Binding)
    requires Occurrences(occurrences)
  {
    Literally(WindowLiterals(occurrences), b) && BindsTuples(WindowsDiffering(occurrences), memo, n, b)
  }

  ghost predicate Fittable(occurrences: seq<seq<Json>>, memo: Memo, n: nat)
    requires Occurrences(occurrences)
  {
    exists b :: WindowFitsAt(occurrences, memo, n, b)
  }

  lemma ColumnsFitAt(occurrences: seq<seq<Json>>, memo: Memo, n: nat, b: Binding)
    requires Occurrences(occurrences)
    ensures WindowFitsAt(occurrences, memo, n, b)
      <==> forall j | 0 <= j < |occurrences[0]| :: FitsAt(Column(occurrences, j), memo, n, b)
  {
    hide BindsTuple, Literals, Differing, Column;
    if forall j | 0 <= j < |occurrences[0]| :: FitsAt(Column(occurrences, j), memo, n, b) {
      forall p | p in WindowLiterals(occurrences) ensures p in b && b[p] == Placeholder(p) {
        var j :| 0 <= j < |occurrences[0]| && p in Literals(Column(occurrences, j));
        assert FitsAt(Column(occurrences, j), memo, n, b);
      }
      forall v | v in WindowsDiffering(occurrences) ensures BindsTuple(v, memo, n, b) {
        var j :| 0 <= j < |occurrences[0]| && v in Differing(Column(occurrences, j));
        assert FitsAt(Column(occurrences, j), memo, n, b);
      }
    }
    if WindowFitsAt(occurrences, memo, n, b) {
      forall j | 0 <= j < |occurrences[0]| ensures FitsAt(Column(occurrences, j), memo, n, b) {
        assert forall p | p in Literals(Column(occurrences, j)) :: p in WindowLiterals(occurrences);
        assert forall v | v in Differing(Column(occurrences, j)) :: v in WindowsDiffering(occurrences);
      }
    }
  }

  lemma WindowFits(occurrences: seq<seq<Json>>, body: seq<Json>, params: seq<string>, memo: Memo, n: nat, b: Binding)
    requires Occurrences(occurrences) && Mined(occurrences, body, params, memo) && n < |occurrences|
    ensures Fits(Arr(body), Arr(occurrences[n]), b) <==> WindowFitsAt(occurrences, memo, n, b)
  {
    assert occurrences[n] in occurrences;
    ColumnsFitAt(occurrences, memo, n, b);
    hide WindowFitsAt, FitsAt, Generalizes, ValidMemo, WindowsDiffering, Params;
    var lfs := occurrences[n];
    forall j: nat | j < |lfs| ensures Fits(body[j], lfs[j], b) <==> FitsAt(Column(occurrences, j), memo, n, b) {
      GeneralizationFits(Column(occurrences, j), body[j], memo, n, b);
    }
    assert Fits(Arr(body), Arr(lfs), b) <==> forall j | 0 <= j < |lfs| :: Fits(body[j], lfs[j], b);
  }

  /** Each logical form as the only field of a statement. */
  function Statements(lfs: seq<Json>): seq<Item> {
    seq(|lfs|, i requires 0 <= i < |lfs| => Raw(Obj(map["lf" := lfs[i]])))
  }

  /** Only the parameters of a template matter for a fit. */
  lemma {:induction false} FitsRestricted(t: Json, c: Json, b: Binding, small: Binding)
    requires Fits(t, c, b) && forall p | p in Params(t) && p in b :: p in small && small[p] == b[p]
    ensures Fits(t, c, small)
  {
    if IsParam(t) {
    } else if t.Obj? {
      forall k | k in t.fields ensures Fits(t.fields[k], c.fields[k], small) {
        assert forall p | p in Params(t.fields[k]) :: p in Params(t);
        FitsRestricted(t.fields[k], c.fields[k], b, small);
      }
    } else if t.Arr? {
      forall i | 0 <= i < |t.items| ensures Fits(t.items[i], c.items[i], small) {
        assert forall p | p in Params(t.items[i]) :: p in Params(t);
        FitsRestricted(t.items[i], c.items[i], b, small);
      }
    }
  }

  ghost predicate HasFit(t: Json, c: Json) {
    exists b :: Fits(t, c, b)
  }

  /** Matching a whole window is fitting it under some binding. */
  lemma WindowMatches(lfs: seq<Json>, m: Macro)
    requires |m.body| == |lfs| && forall p | p in m.params :: p in Params(Arr(m.body))
    ensures Matches(Statements(lfs), 0, m)
      <==> OnlyForms(lfs) && HasFit(Arr(m.body), Arr(lfs))
  {
    hide Params, Fits;
    var stmts := Statements(lfs);
    assert Window(stmts, 0, |lfs|) == lfs by {
      assert stmts[0..0 + |lfs|] == stmts;
    }
    assert forall j | 0 <= j < |lfs| :: LfOf(stmts[j]) == lfs[j];
    if OnlyForms(lfs) && HasFit(Arr(m.body), Arr(lfs)) {
      var b :| Fits(Arr(m.body), Arr(lfs), b);
      FitsIsSubst(Arr(m.body), Arr(lfs), b);
      var small := map p | p in Params(Arr(m.body)) :: b[p];
      FitsRestricted(Arr(m.body), Arr(lfs), b, small);
      assert IsMatch(stmts, 0, m, small);
    }
  }

  /** Names go to the n-th values of their tuples, literals to themselves. */
  ghost function Fitting(literals: set<string>, memo: Memo, width: nat, n: nat): Binding
    requires AllWide(memo, width) && n < width
  {
    map p | p in literals + memo.Values :: if p in memo.Values then NthOf(memo, width, p, n) else Placeholder(p)
  }

  lemma FittingLiterally(literals: set<string>, memo: Memo, width: nat, n: nat)
    requires AllWide(memo, width) && n < width && literals !! memo.Values
    ensures Literally(literals, Fitting(literals, memo, width, n))
  {
  }

  lemma FittingTuples(literals: set<string>, memo: Memo, width: nat, n: nat)
    requires AllWide(memo, width) && OneTupleEach(memo) && n < width
    ensures BindsTuples(memo.Keys, memo, n, Fitting(literals, memo, width, n))
  {
    hide NthOf, AllWide, OneTupleEach;
    var b := Fitting(literals, memo, width, n);
    forall v | v in memo ensures BindsTuple(v, memo, n, b) {
      assert memo[v] in memo.Values;
      NthIs(memo, width, v, n);
    }
  }

  /** Without a collision every window fits. */
  lemma AllFittable(occurrences: seq<seq<Json>>, body: seq<Json>, params: seq<string>, memo: Memo, n: nat)
    requires Occurrences(occurrences) && Mined(occurrences, body, params, memo) && n < |occurrences|
    requires NoCollision(occurrences)
    ensures Fittable(occurrences, memo, n)
  {
    NamesAreGenerated(occurrences, body, params, memo);
    hide Generalizes, Params, ParamName, WindowsDiffering, WindowLiterals, GeneratedNames, Fitting,
      AllWide, AllNames, AllGiven, OneTupleEach, Literally, BindsTuples;
    var literals := WindowLiterals(occurrences);
    FittingLiterally(literals, memo, |occurrences|, n);
    FittingTuples(literals, memo, |occurrences|, n);
    assert WindowFitsAt(occurrences, memo, n, Fitting(literals, memo, |occurrences|, n));
  }

  /** The n-th value of the tuple a name stands for. */
  ghost function NthOf(memo: Memo, width: nat, p: string, n: nat): Json
    requires AllWide(memo, width) && p in memo.Values && n < width
  {
    var v :| v in memo && memo[v] == p;
    v[n]
  }

  lemma NthIs(memo: Memo, width: nat, v: seq<Json>, n: nat)
    requires AllWide(memo, width) && OneTupleEach(memo) && v in memo && n < width
    ensures n < |v| && NthOf(memo, width, memo[v], n) == v[n]
  {
  }

  /** With a collision the window in which the colliding tuple differs from the literal does not fit. */
  lemma Colliding(occurrences: seq<seq<Json>>, body: seq<Json>, params: seq<string>, memo: Memo) returns (n: nat)
    requires Occurrences(occurrences) && Mined(occurrences, body, params, memo) && !NoCollision(occurrences)
    ensures n < |occurrences| && !Fittable(occurrences, memo, n)
  {
    NamesAreGenerated(occurrences, body, params, memo);
    hide Generalizes, Literals, Differing, Params, ParamName, WindowLiterals, GeneratedNames;
    var p :| p in WindowLiterals(occurrences) && p in GeneratedNames(occurrences);
    var v :| v in memo && memo[v] == p;
    var j :| 0 <= j < |occurrences[0]| && v in Differing(Column(occurrences, j));
    TuplesDiffer(Column(occurrences, j), v);
    n := if v[0] != Placeholder(p) then 0 else var i :| 0 <= i < |v| && v[i] != v[0]; i;
    forall b ensures !WindowFitsAt(occurrences, memo, n, b) {
      assert BindsTuples(WindowsDiffering(occurrences), memo, n, b) ==> BindsTuple(v, memo, n, b);
    }
  }

  /** MINED BODIES VERIFY, EXACTLY. All windows a body was mined from match it, with every parameter
      bound, if and only if they hold logical forms and no shared literal collides with a name. */
  lemma MinedMatches(occurrences: seq<seq<Json>>, m: Macro, memo: Memo)
    requires Occurrences(occurrences) && Mined(occurrences, m.body, m.params, memo)
    ensures (forall n | 0 <= n < |occurrences| :: Matches(Statements(occurrences[n]), 0, m))
      <==> AllForms(occurrences) && NoCollision(occurrences)
  {
    hide Matches, Statements, Fittable, Mined, NoCollision, OnlyForms, WindowFitsAt;
    forall n | 0 <= n < |occurrences|
      ensures Matches(Statements(occurrences[n]), 0, m) <==> OnlyForms(occurrences[n]) && Fittable(occurrences, memo, n)
    {
      OneWindow(occurrences, m, memo, n);
    }
    if NoCollision(occurrences) {
      forall n | 0 <= n < |occurrences| ensures Fittable(occurrences, memo, n) {
        AllFittable(occurrences, m.body, m.params, memo, n);
      }
    } else {
      var n := Colliding(occurrences, m.body, m.params, memo);
      assert !Matches(Statements(occurrences[n]), 0, m);
    }
  }

  lemma OneWindow(occurrences: seq<seq<Json>>, m: Macro, memo: Memo, n: nat)
    requires Occurrences(occurrences) && Mined(occurrences, m.body, m.params, memo) && n < |occurrences|
    ensures Matches(Statements(occurrences[n]), 0, m) <==> OnlyForms(occurrences[n]) && Fittable(occurrences, memo, n)
  {
    ParamsOccur(occurrences, m, memo);
    assert occurrences[n] in occurrences && |m.body| == |occurrences[n]|;
    hide Fits, Params, Matches, Statements, WindowFitsAt, Mined, OnlyForms;
    WindowMatches(occurrences[n], m);
    var t, c := Arr(m.body), Arr(occurrences[n]);
    if HasFit(t, c) {
      var b :| Fits(t, c, b);
      WindowFits(occurrences, m.body, m.params, memo, n, b);
    }
    if Fittable(occurrences, memo, n) {
      var b :| WindowFitsAt(occurrences, memo, n, b);
      WindowFits(occurrences, m.body, m.params, memo, n, b);
    }
  }

  lemma ParamsOccur(occurrences: seq<seq<Json>>, m: Macro, memo: Memo)
    requires Occurrences(occurrences) && Mined(occurrences, m.body, m.params, memo)
    ensures forall p | p in m.params :: p in Params(Arr(m.body))
  {
    hide Params, Generalizes, ValidMemo, WindowsDiffering;
    forall p | p in m.params ensures p in Params(Arr(m.body)) {
      assert p in multiset(m.params);
    }
  }

  /** Data without "$" strings never collides. */
  lemma DollarFreeIsClean(occurrences: seq<seq<Json>>)
    requires Occurrences(occurrences)
    requires forall n, j | 0 <= n < |occurrences| && 0 <= j < |occurrences[n]| :: Params(occurrences[n][j]) == {}
    ensures NoCollision(occurrences)
  {
    hide Params, Literals;
    forall j | 0 <= j < |occurrences[0]| ensures Literals(Column(occurrences, j)) == {} {
      LiteralsOfData(Column(occurrences, j));
      assert Column(occurrences, j)[0] == occurrences[0][j];
    }
  }

  lemma {:induction false} LiteralsOfData(values: seq<Json>)
    requires values != []
    ensures Literals(values) <= Params(values[0])
    decreases values[0]
  {
    if AllEqual(values) {
    } else if AllObjects(values) {
      forall k | k in values[0].fields ensures Literals(FieldOf(values, k)) <= Params(values[0].fields[k]) {
        LiteralsOfData(FieldOf(values, k));
      }
    } else if AllLists(values) {
      forall i | 0 <= i < |values[0].items| ensures Literals(ItemAt(values, i)) <= Params(values[0].items[i]) {
        LiteralsOfData(ItemAt(values, i));
      }
    }
  }

  /** `_verifies`: every occurrence matches the candidate. */
  method Verifies(candidate: Macro, occurrences: seq<seq<Json>>) returns (ok: bool)
    ensures ok <==> forall n | 0 <= n < |occurrences| :: Matches(Statements(occurrences[n]), 0, candidate)
  {
    for i := 0 to |occurrences|
      invariant forall n | 0 <= n < i :: Matches(Statements(occurrences[n]), 0, candidate)
    {
      var r := MatchAt(Statements(occurrences[i]), 0, candidate);
      if r.None? {
        return false;
      }
    }
    return true;
  }

  /** Generalize the occurrences of a cluster and verify the body: the step of `mine` between the
      clustering and the pricing. What it verifies is decided by the occurrences alone. */
  method Candidate(name: string, occurrences: seq<seq<Json>>) returns (m: Macro, ok: bool)
    requires Occurrences(occurrences)
    ensures m.name == name && exists memo :: Mined(occurrences, m.body, m.params, memo)
    ensures ok <==> forall n | 0 <= n < |occurrences| :: Matches(Statements(occurrences[n]), 0, m)
    ensures ok <==> AllForms(occurrences) && NoCollision(occurrences)
  {
    hide Mined, Matches, Statements, AllForms, NoCollision;
    ghost var memo;
    var body, params;
    body, params, memo := AntiunifyWindows(occurrences);
    m := Macro(name, params, body);
    ok := Verifies(m, occurrences);
    MinedMatches(occurrences, m, memo);
  }
}
