/** JSON values and macro templates: `_unify` of `buildloop/mdl_macros.py` and `_macro_subst` of
    `generators/reading.py`. */
module Templates {

  /** Parsed JSON. Objects are maps, so the order of their keys plays no part. */
  datatype Json =
    | Null
    | Bool(b: bool)
    | Num(n: real)
    | Str(s: string)
    | Arr(items: seq<Json>)
    | Obj(fields: map<string, Json>)

  type Binding = map<string, Json>

  /** A string "$p" stands for parameter p. */
  predicate IsParam(t: Json) {
    t.Str? && t.s != [] && t.s[0] == '$'
  }

  ghost predicate Extends(small: Binding, big: Binding) {
    forall p | p in small :: p in big && big[p] == small[p]
  }

  /** The parameters of a template. */
  function Params(t: Json): set<string> {
    match t
    case Str(s) => if IsParam(t) then {s[1..]} else {}
    case Arr(items) => set i, p | 0 <= i < |items| && p in Params(items[i]) :: p
    case Obj(fields) => set k, p | k in fields && p in Params(fields[k]) :: p
    case _ => {}
  }

  /** The concrete value fits the template under the binding. */
  ghost predicate Fits(t: Json, c: Json, b: Binding) {
    if IsParam(t) then t.s[1..] in b && b[t.s[1..]] == c
    else if t.Obj? then
      c.Obj? && t.fields.Keys == c.fields.Keys && forall k | k in t.fields :: Fits(t.fields[k], c.fields[k], b)
    else if t.Arr? then
      c.Arr? && |t.items| == |c.items| && forall i | 0 <= i < |t.items| :: Fits(t.items[i], c.items[i], b)
    else t == c
  }

  /** `_macro_subst`, for arguments that cover the template. */
  function Subst(t: Json, b: Binding): Json {
    if IsParam(t) then if t.s[1..] in b then b[t.s[1..]] else t
    else
      match t
      case Arr(items) => Arr(seq(|items|, i requires 0 <= i < |items| => Subst(items[i], b)))
      case Obj(fields) => Obj(map k | k in fields :: Subst(fields[k], b))
      case _ => t
  }

  /** Fitting is exactly being the substitution instance: the round trip between the matcher of the
      pricer and the expander of the reading parser. */
  lemma {:induction false} FitsIsSubst(t: Json, c: Json, b: Binding)
    ensures Fits(t, c, b) <==> Params(t) <= b.Keys && Subst(t, b) == c
  {
    if IsParam(t) {
    } else if t.Obj? {
      forall k | k in t.fields && c.Obj? && k in c.fields
        ensures Fits(t.fields[k], c.fields[k], b) <==> Params(t.fields[k]) <= b.Keys && Subst(t.fields[k], b) == c.fields[k]
      {
        FitsIsSubst(t.fields[k], c.fields[k], b);
      }
      assert Params(t) <= b.Keys <==> forall k | k in t.fields :: Params(t.fields[k]) <= b.Keys by {
        forall k, p | k in t.fields && p in Params(t.fields[k]) ensures p in Params(t) {
        }
      }
      if c.Obj? && t.fields.Keys == c.fields.Keys {
        assert Subst(t, b) == c <==> Subst(t, b).fields == c.fields;
      }
    } else if t.Arr? {
      forall i | 0 <= i < |t.items| && c.Arr? && |c.items| == |t.items|
        ensures Fits(t.items[i], c.items[i], b) <==> Params(t.items[i]) <= b.Keys && Subst(t.items[i], b) == c.items[i]
      {
        FitsIsSubst(t.items[i], c.items[i], b);
      }
      assert Params(t) <= b.Keys <==> forall i | 0 <= i < |t.items| :: Params(t.items[i]) <= b.Keys by {
        forall i, p | 0 <= i < |t.items| && p in Params(t.items[i]) ensures p in Params(t) {
        }
      }
      if c.Arr? && |t.items| == |c.items| {
        assert Subst(t, b) == c <==> Subst(t, b).items == c.items;
      }
    }
  }

  lemma {:induction false} FitsExtends(t: Json, c: Json, small: Binding, big: Binding)
    requires Fits(t, c, small) && Extends(small, big)
    ensures Fits(t, c, big)
  {
    if IsParam(t) {
    } else if t.Obj? {
      forall k | k in t.fields ensures Fits(t.fields[k], c.fields[k], big) {
        FitsExtends(t.fields[k], c.fields[k], small, big);
      }
    } else if t.Arr? {
      forall i | 0 <= i < |t.items| ensures Fits(t.items[i], c.items[i], big) {
        FitsExtends(t.items[i], c.items[i], small, big);
      }
    }
  }

  /** A fit determines the binding on the template's parameters. */
  lemma {:induction false} FitsDetermines(t: Json, c: Json, b: Binding, b': Binding)
    requires Fits(t, c, b) && Fits(t, c, b')
    ensures forall p | p in Params(t) :: p in b && p in b' && b[p] == b'[p]
  {
    if IsParam(t) {
    } else if t.Obj? {
      forall p | p in Params(t) ensures p in b && p in b' && b[p] == b'[p] {
        var k :| k in t.fields && p in Params(t.fields[k]);
        FitsDetermines(t.fields[k], c.fields[k], b, b');
      }
    } else if t.Arr? {
      forall p | p in Params(t) ensures p in b && p in b' && b[p] == b'[p] {
        var i :| 0 <= i < |t.items| && p in Params(t.items[i]);
        FitsDetermines(t.items[i], c.items[i], b, b');
      }
    }
  }

  // ---------------------------------------------------------------- the matcher

  /** What `_unify` promises: it succeeds exactly when some extension of the binding fits, and then
      returns the least one. */
  ghost predicate Unified(t: Json, c: Json, before: Binding, ok: bool, after: Binding) {
    if ok then
      Extends(before, after) && after.Keys == before.Keys + Params(t) && Fits(t, c, after)
    else
      forall b | Extends(before, b) :: !Fits(t, c, b)
  }

  /** `_unify`. The binding dict it fills is the returned value; its contents after a failure are
      dropped by the caller. */
  method Unify(t: Json, c: Json, before: Binding) returns (ok: bool, after: Binding)
    ensures Unified(t, c, before, ok, after)
    decreases t, 1
  {
    if IsParam(t) {
      var p := t.s[1..];
      if p in before {
        return before[p] == c, before;
      }
      return true, before[p := c];
    }
    if t.Obj? {
      if !c.Obj? || t.fields.Keys != c.fields.Keys {
        return false, before;
      }
      ok, after := UnifyFields(t, c, before);
    } else if t.Arr? {
      if !c.Arr? || |t.items| != |c.items| {
        return false, before;
      }
      ok, after := UnifyItems(t, c, before);
    } else {
      return t == c, before;
    }
  }

  function FieldParams(t: Json, keys: set<string>): set<string>
    requires t.Obj? && keys <= t.fields.Keys
  {
    set k, p | k in keys && p in Params(t.fields[k]) :: p
  }

  function ItemParams(t: Json, n: nat): set<string>
    requires t.Arr? && n <= |t.items|
  {
    set i, p | 0 <= i < n && p in Params(t.items[i]) :: p
  }

  lemma MoreParams(t: Json)
    ensures t.Obj? ==> forall keys, k | keys <= t.fields.Keys && k in t.fields ::
      FieldParams(t, keys + {k}) == FieldParams(t, keys) + Params(t.fields[k])
    ensures t.Arr? ==> forall n: nat, n': nat | n < |t.items| && n' == n + 1 ::
      ItemParams(t, n') == ItemParams(t, n) + Params(t.items[n])
  {
    hide Params;
  }

  /** The fields so far fit, and the binding is the least that makes them. */
  ghost predicate FieldsUnified(t: Json, c: Json, before: Binding, keys: set<string>, after: Binding)
    requires t.Obj? && c.Obj? && keys <= t.fields.Keys == c.fields.Keys
  {
    && Extends(before, after)
    && after.Keys == before.Keys + FieldParams(t, keys)
    && forall k | k in keys :: Fits(t.fields[k], c.fields[k], after)
  }

  /** An extension of the first binding that fits the fields so far extends the last one too. */
  lemma FieldsLeast(t: Json, c: Json, before: Binding, keys: set<string>, after: Binding, b: Binding)
    requires t.Obj? && c.Obj? && keys <= t.fields.Keys == c.fields.Keys
    requires FieldsUnified(t, c, before, keys, after) && Extends(before, b)
    requires forall k | k in keys :: Fits(t.fields[k], c.fields[k], b)
    ensures Extends(after, b)
  {
    forall p | p in after ensures p in b && b[p] == after[p] {
      if p !in before {
        var k :| k in keys && p in Params(t.fields[k]);
        FitsDetermines(t.fields[k], c.fields[k], after, b);
      }
    }
  }

  lemma FieldsStep(t: Json, c: Json, before: Binding, keys: set<string>, mid: Binding, k: string, after: Binding)
    requires t.Obj? && c.Obj? && keys <= t.fields.Keys == c.fields.Keys && k in t.fields
    requires FieldsUnified(t, c, before, keys, mid) && Unified(t.fields[k], c.fields[k], mid, true, after)
    ensures FieldsUnified(t, c, before, keys + {k}, after)
  {
    MoreParams(t);
    hide Params, FieldParams, Fits;
    forall l | l in keys ensures Fits(t.fields[l], c.fields[l], after) {
      FitsExtends(t.fields[l], c.fields[l], mid, after);
    }
  }

  /** The dict case: the keys in whatever order the dict yields them. */
  method UnifyFields(t: Json, c: Json, before: Binding) returns (ok: bool, after: Binding)
    requires t.Obj? && c.Obj? && t.fields.Keys == c.fields.Keys
    ensures Unified(t, c, before, ok, after)
    decreases t, 0
  {
    after := before;
    var rest := t.fields.Keys;
    while rest != {}
      invariant rest <= t.fields.Keys
      invariant FieldsUnified(t, c, before, t.fields.Keys - rest, after)
    {
      var k :| k in rest;
      var mid := after;
      ok, after := Unify(t.fields[k], c.fields[k], mid);
      if !ok {
        forall b | Extends(before, b) ensures !Fits(t, c, b) {
          if Fits(t, c, b) {
            FieldsLeast(t, c, before, t.fields.Keys - rest, mid, b);
          }
        }
        return;
      }
      FieldsStep(t, c, before, t.fields.Keys - rest, mid, k, after);
      assert t.fields.Keys - (rest - {k}) == t.fields.Keys - rest + {k};
      rest := rest - {k};
    }
    ok := true;
    assert t.fields.Keys - rest == t.fields.Keys;
  }

  ghost predicate ItemsUnified(t: Json, c: Json, before: Binding, n: nat, after: Binding)
    requires t.Arr? && c.Arr? && n <= |t.items| == |c.items|
  {
    && Extends(before, after)
    && after.Keys == before.Keys + ItemParams(t, n)
    && forall i | 0 <= i < n :: Fits(t.items[i], c.items[i], after)
  }

  lemma ItemsLeast(t: Json, c: Json, before: Binding, n: nat, after: Binding, b: Binding)
    requires t.Arr? && c.Arr? && n <= |t.items| == |c.items|
    requires ItemsUnified(t, c, before, n, after) && Extends(before, b)
    requires forall i | 0 <= i < n :: Fits(t.items[i], c.items[i], b)
    ensures Extends(after, b)
  {
    forall p | p in after ensures p in b && b[p] == after[p] {
      if p !in before {
        var i :| 0 <= i < n && p in Params(t.items[i]);
        FitsDetermines(t.items[i], c.items[i], after, b);
      }
    }
  }

  lemma NoItemsUnified(t: Json, c: Json, before: Binding)
    requires t.Arr? && c.Arr? && |t.items| == |c.items|
    ensures ItemsUnified(t, c, before, 0, before)
  {
  }

  lemma ItemsAllUnified(t: Json, c: Json, before: Binding, after: Binding)
    requires t.Arr? && c.Arr? && |t.items| == |c.items| && ItemsUnified(t, c, before, |t.items|, after)
    ensures Unified(t, c, before, true, after)
  {
  }

  lemma ItemsStep(t: Json, c: Json, before: Binding, n: nat, mid: Binding, after: Binding)
    requires t.Arr? && c.Arr? && n < |t.items| == |c.items|
    requires ItemsUnified(t, c, before, n, mid) && Unified(t.items[n], c.items[n], mid, true, after)
    ensures ItemsUnified(t, c, before, n + 1, after)
  {
    MoreParams(t);
    hide Params, ItemParams, Fits;
    forall i | 0 <= i < n ensures Fits(t.items[i], c.items[i], after) {
      FitsExtends(t.items[i], c.items[i], mid, after);
    }
  }

  /** The list case. */
  method UnifyItems(t: Json, c: Json, before: Binding) returns (ok: bool, after: Binding)
    requires t.Arr? && c.Arr? && |t.items| == |c.items|
    ensures Unified(t, c, before, ok, after)
    decreases t, 0
  {
    after := before;
    for n := 0 to |t.items|
      invariant ItemsUnified(t, c, before, n, after)
    {
      var mid := after;
      ok, after := Unify(t.items[n], c.items[n], mid);
      if !ok {
        forall b | Extends(before, b) ensures !Fits(t, c, b) {
          if Fits(t, c, b) {
            ItemsLeast(t, c, before, n, mid, b);
          }
        }
        return;
      }
      ItemsStep(t, c, before, n, mid, after);
    }
    ok := true;
  }
}
