/**
 What `validate` accepts, stated without its control flow: a value is cut at every
 container of a flagged kind, and each leaf must be a value of the element type.
 */
module Conformance {
  import opened Wrappers
  import opened JsonValues
  import opened TypeSpecs
  import opened Validator

  /** The leaves of the tree of flagged containers that starts at `d`. */
  ghost function Leaves(d: Json, t: TypeSpec): set<Json>
    ensures !Cut(d, t) ==> Leaves(d, t) == {d}
    ensures forall l | l in Leaves(d, t) :: !Cut(l, t) && (l == d || l < d)
    ensures Cut(d, t) ==> forall l | l in Leaves(d, t) :: l < d
    decreases d
  {
    if Cut(d, t) then
      set k, l | 0 <= k < NumChildren(d) && l in Leaves(Child(d, k), t) :: l
    else {d}
  }

  ghost predicate Conforms(ms: seq<Member>, d: Json, t: TypeSpec, collection: bool)
    decreases d, if Cut(d, t) then 0 else if LooksUp(t, collection) then 4 else 1
  {
    if t.ty.Named? && !LooksUp(t, collection) && !Cut(d, t) then false
    else forall l | l in Leaves(d, t) :: IsElement(ms, l, t.ty)
  }

  /** `l` is a value of the type without its prefixes. */
  ghost predicate IsElement(ms: seq<Member>, l: Json, ty: Type)
    decreases l, if ty.Named? then 3 else 0, 1
  {
    match ty
    case Invalid => false
    case Enum(values) => l.Str? && l.s in values
    case Named(n) => Reaches(ms, l, n, |ms|)
    case Struct(params) =>
      l.Object? && forall p | p in params :: FieldConforms(ms, l, p)
  }

  /**
   Within `k` alias steps from `n` there is a primitive type or another type that `l` is of.
   As many steps as there are members lead everywhere.
   */
  ghost predicate Reaches(ms: seq<Member>, l: Json, n: string, k: nat)
    decreases l, 2, k
  {
    || IsPrimitive(l, n)
    || (FindType(ms, n).Some?
        && if AliasOf(ms, n).Some? then k > 0 && Reaches(ms, l, AliasOf(ms, n).value, k - 1)
           else Conforms(ms, l, FindType(ms, n).value, false))
  }

  ghost predicate FieldConforms(ms: seq<Member>, d: Json, p: Param)
    requires d.Object?
    decreases d, 0, 0
  {
    match Get(d, p.name)
    case Some(value) =>
      if value.Null? then p.spec.maybeType else Conforms(ms, value, p.spec, false)
    case None => p.spec.maybeType
  }

  lemma {:induction false} ReachedStops(ms: seq<Member>, l: Json, n: string, k: nat)
    requires Reaches(ms, l, n, k)
    ensures Stops(ms, l, n, k)
    decreases k
  {
    if !IsPrimitive(l, n) && AliasOf(ms, n).Some? {
      ReachedStops(ms, l, AliasOf(ms, n).value, k - 1);
    }
  }

  lemma {:induction false} ReachesWithin(ms: seq<Member>, l: Json, n: string, k: nat, j: nat)
    requires Reaches(ms, l, n, k) && Stops(ms, l, n, j)
    ensures Reaches(ms, l, n, j)
    decreases k
  {
    if !IsPrimitive(l, n) && AliasOf(ms, n).Some? {
      ReachesWithin(ms, l, AliasOf(ms, n).value, k - 1, j - 1);
    }
  }

  lemma ReachesAnyhow(ms: seq<Member>, l: Json, n: string, k: nat)
    requires Reaches(ms, l, n, k)
    ensures Reaches(ms, l, n, |ms|)
  {
    ReachedStops(ms, l, n, k);
    ChainsAreShort(ms, l, n, k);
    ReachesWithin(ms, l, n, k, |ms|);
  }

  /** A value of a named type is one of that primitive type, or of the type that has the name. */
  lemma NamedElement(ms: seq<Member>, l: Json, n: string)
    ensures IsElement(ms, l, Named(n))
       <==> (IsPrimitive(l, n) || (FindType(ms, n).Some? && Conforms(ms, l, FindType(ms, n).value, false)))
  {
    if !IsPrimitive(l, n) && AliasOf(ms, n).Some? {
      var t := FindType(ms, n).value;
      assert Leaves(l, t) == {l} && (Conforms(ms, l, t, false) <==> IsElement(ms, l, t.ty));
      if IsElement(ms, l, Named(n)) {
        assert Reaches(ms, l, n, |ms|);
        ReachesAnyhow(ms, l, t.ty.name, |ms| - 1);
      }
      if IsElement(ms, l, t.ty) {
        assert Reaches(ms, l, n, |ms| + 1);
        ReachesAnyhow(ms, l, n, |ms| + 1);
      }
    }
  }

  // ----- The code accepts exactly the conforming values -----

  lemma {:induction false} VerdictIsConformance(depth: nat, ms: seq<Member>, d: Json, t: TypeSpec, name: string, coll: bool)
    requires !ValidateIn(depth, ms, d, t, name, coll).TooDeep?
    ensures ValidateIn(depth, ms, d, t, name, coll).Accept? <==> Conforms(ms, d, t, coll)
    decreases depth, 1
  {
    assert Leaves(d, t) == {d} || Cut(d, t);
    if t.ty.Enum? && d.Str? {
      assert d in Leaves(d, t);
    } else if Cut(d, t) {
      ChildrenVerdict(depth - 1, ms, d, 0, t, name);
      LeavesOfChildren(ms, d, t);
    } else if LooksUp(t, coll) {
      if !IsPrimitive(d, t.ty.name) && FindType(ms, t.ty.name).Some? {
        VerdictIsConformance(depth - 1, ms, d, FindType(ms, t.ty.name).value, name, false);
      }
      NamedElement(ms, d, t.ty.name);
      assert Leaves(d, t) == {d} && d in Leaves(d, t);
      assert Conforms(ms, d, t, coll) <==> IsElement(ms, d, t.ty);
    } else if t.ty.Struct? && d.Object? {
      ParamsVerdict(depth - 1, ms, d, t.ty.params);
      assert Leaves(d, t) == {d} && d in Leaves(d, t);
      assert IsElement(ms, d, t.ty) <==> forall p | p in t.ty.params :: FieldConforms(ms, d, p);
      assert Conforms(ms, d, t, coll) <==> IsElement(ms, d, t.ty);
    } else {
      assert d in Leaves(d, t) && (t.ty.Named? || !IsElement(ms, d, t.ty));
    }
  }

  lemma {:induction false} ChildrenVerdict(depth: nat, ms: seq<Member>, d: Json, k: nat, t: TypeSpec, name: string)
    requires k <= NumChildren(d) && !ValidateChildren(depth, ms, d, k, t, name).TooDeep?
    ensures ValidateChildren(depth, ms, d, k, t, name).Accept?
       <==> forall j | k <= j < NumChildren(d) :: Conforms(ms, Child(d, j), t, true)
    decreases depth, 2, NumChildren(d) - k
  {
    if k < NumChildren(d) {
      VerdictIsConformance(depth, ms, Child(d, k), t, name, true);
      if ValidateIn(depth, ms, Child(d, k), t, name, true).Accept? {
        ChildrenVerdict(depth, ms, d, k + 1, t, name);
      }
    }
  }

  lemma {:induction false} ParamsVerdict(depth: nat, ms: seq<Member>, d: Json, params: seq<Param>)
    requires d.Object? && !ValidateParams(depth, ms, d, params).TooDeep?
    ensures ValidateParams(depth, ms, d, params).Accept? <==> forall p | p in params :: FieldConforms(ms, d, p)
    decreases depth, 2, |params|
  {
    if params != [] {
      var p := params[0];
      assert params == [p] + params[1..];
      ParamVerdict(depth, ms, d, p);
      if FieldConforms(ms, d, p) {
        ParamsVerdict(depth, ms, d, params[1..]);
      }
    }
  }

  lemma {:induction false} ParamVerdict(depth: nat, ms: seq<Member>, d: Json, p: Param)
    requires d.Object? && !ValidateParam(depth, ms, d, p).TooDeep?
    ensures ValidateParam(depth, ms, d, p).Accept? <==> FieldConforms(ms, d, p)
    decreases depth, 2, 0
  {
    if Get(d, p.name).Some? && !Get(d, p.name).value.Null? {
      VerdictIsConformance(depth, ms, Get(d, p.name).value, p.spec, p.name, false);
    }
  }

  lemma LeavesOfChildren(ms: seq<Member>, d: Json, t: TypeSpec)
    requires Cut(d, t)
    ensures Conforms(ms, d, t, true) == Conforms(ms, d, t, false)
    ensures Conforms(ms, d, t, true) <==> forall k | 0 <= k < NumChildren(d) :: Conforms(ms, Child(d, k), t, true)
  {
    if Conforms(ms, d, t, true) {
      forall k | 0 <= k < NumChildren(d) ensures Conforms(ms, Child(d, k), t, true) {
        forall l | l in Leaves(Child(d, k), t) ensures IsElement(ms, l, t.ty) {
          assert l in Leaves(d, t);
        }
      }
    }
    if forall k | 0 <= k < NumChildren(d) :: Conforms(ms, Child(d, k), t, true) {
      forall l | l in Leaves(d, t) ensures IsElement(ms, l, t.ty) {
        var k :| 0 <= k < NumChildren(d) && l in Leaves(Child(d, k), t);
        assert Conforms(ms, Child(d, k), t, true);
      }
    }
  }

  /** The verdict of a call with the default arguments; `TooDeep` if it does not come back. */
  function Validate(ms: seq<Member>, d: Json, t: TypeSpec): (v: Verdict)
    ensures v.TooDeep? <==> !Terminates(ms, d, t, "<root>", false)
    ensures Acyclic(ms) ==> !v.TooDeep?
    ensures !v.TooDeep? ==> (v.Accept? <==> Conforms(ms, d, t, false))
    ensures forall depth: nat | !ValidateIn(depth, ms, d, t, "<root>", false).TooDeep? ::
              ValidateIn(depth, ms, d, t, "<root>", false) == v
  {
    VerdictAtBound(ms, d, t);
    ValidateIn(StackBound(ms, d, t, false), ms, d, t, "<root>", false)
  }

  lemma VerdictAtBound(ms: seq<Member>, d: Json, t: TypeSpec)
    ensures var v := ValidateIn(StackBound(ms, d, t, false), ms, d, t, "<root>", false);
            && (v.TooDeep? <==> !Terminates(ms, d, t, "<root>", false))
            && (Acyclic(ms) ==> !v.TooDeep?)
            && (!v.TooDeep? ==> (v.Accept? <==> Conforms(ms, d, t, false)))
            && forall depth: nat | !ValidateIn(depth, ms, d, t, "<root>", false).TooDeep? :: ValidateIn(depth, ms, d, t, "<root>", false) == v
  {
    hide ValidateIn, StackBound, Acyclic, Conforms;
    var bound := StackBound(ms, d, t, false);
    TerminatesWithinBound(ms, d, t, "<root>", false);
    if Acyclic(ms) {
      BoundSuffices(bound, ms, d, t, "<root>", false);
    }
    if !ValidateIn(bound, ms, d, t, "<root>", false).TooDeep? {
      VerdictIsConformance(bound, ms, d, t, "<root>", false);
    }
    forall depth: nat | !ValidateIn(depth, ms, d, t, "<root>", false).TooDeep?
      ensures ValidateIn(depth, ms, d, t, "<root>", false) == ValidateIn(bound, ms, d, t, "<root>", false)
    {
      BoundDecides(depth, bound, ms, d, t, "<root>", false);
      SameVerdict(bound, depth, ms, d, t, "<root>", false);
    }
  }

  // ----- Consequences -----

  /** `null` is a value of no type; only a `?` field lets it through. */
  lemma NullNeverConforms(ms: seq<Member>, t: TypeSpec, coll: bool)
    ensures !Conforms(ms, Null, t, coll)
  {
    assert Null in Leaves(Null, t);
    NullIsNoElement(ms, t.ty);
  }

  lemma NullIsNoElement(ms: seq<Member>, ty: Type)
    ensures !IsElement(ms, Null, ty)
  {
    if ty.Named? {
      NullReachesNothing(ms, ty.name, |ms|);
    }
  }

  lemma {:induction false} NullReachesNothing(ms: seq<Member>, n: string, k: nat)
    ensures !Reaches(ms, Null, n, k)
    decreases k
  {
    if AliasOf(ms, n).Some? {
      if k > 0 {
        NullReachesNothing(ms, AliasOf(ms, n).value, k - 1);
      }
    } else if FindType(ms, n).Some? {
      var t := FindType(ms, n).value;
      assert Null in Leaves(Null, t);
      assert !IsElement(ms, Null, t.ty) || t.ty.Named?;
    }
  }

  /** One layer of container, as the varlink documentation reads `[]T` and `[string]T`. */
  lemma OneLayer(ms: seq<Member>, d: Json, t: TypeSpec)
    requires Cut(d, t)
    requires forall k | 0 <= k < NumChildren(d) :: !Cut(Child(d, k), t)
    ensures Conforms(ms, d, t, false)
       <==> forall k | 0 <= k < NumChildren(d) :: Conforms(ms, Child(d, k), Bare(t.ty), false)
  {
    LeavesOfChildren(ms, d, t);
    forall k | 0 <= k < NumChildren(d)
      ensures Conforms(ms, Child(d, k), t, true) <==> Conforms(ms, Child(d, k), Bare(t.ty), false)
    {
      assert Leaves(Child(d, k), Bare(t.ty)) == {Child(d, k)};
    }
  }

  /**
   Nested arrays are flattened, whatever the type says about nesting: putting an item of an
   array into one more array never changes the verdict.
   */
  lemma NestingIsInvisible(ms: seq<Member>, items: seq<Json>, k: nat, t: TypeSpec)
    requires t.arrayType && k < |items|
    ensures Conforms(ms, Array(items[k := Array([items[k]])]), t, false) <==> Conforms(ms, Array(items), t, false)
    ensures Acyclic(ms) ==>
              (Validate(ms, Array(items[k := Array([items[k]])]), t).Accept? <==> Validate(ms, Array(items), t).Accept?)
  {
    var flat, inner := Array(items), Array([items[k]]);
    var nested := Array(items[k := inner]);
    LeavesOfChildren(ms, flat, t);
    LeavesOfChildren(ms, inner, t);
    LeavesOfChildren(ms, nested, t);
    assert Child(inner, 0) == items[k];
    assert Conforms(ms, inner, t, true) <==> Conforms(ms, items[k], t, true);
    if Conforms(ms, flat, t, true) {
      forall j | 0 <= j < NumChildren(nested) ensures Conforms(ms, Child(nested, j), t, true) {
        assert Conforms(ms, Child(flat, j), t, true);
      }
    }
    if Conforms(ms, nested, t, true) {
      assert Conforms(ms, Child(nested, k), t, true);
      forall j | 0 <= j < NumChildren(flat) ensures Conforms(ms, Child(flat, j), t, true) {
        assert j != k ==> Child(flat, j) == Child(nested, j);
      }
    }
  }

  /**
   A dictionary of structs accepts exactly the trees of objects that have no leaves, because
   each struct value is itself taken for a dictionary. So no struct value with a field in it
   is accepted inside `[string](...)`.
   */
  lemma DictOfStructs(ms: seq<Member>, d: Json, t: TypeSpec)
    requires t.ty.Struct? && t.dictType
    ensures Conforms(ms, d, t, false) <==> Leaves(d, t) == {}
  {
    if Leaves(d, t) != {} {
      var l :| l in Leaves(d, t);
      assert !Cut(l, t) && !IsElement(ms, l, t.ty);
    }
  }

  /** ... for example `{"k": {"b": "x"}}` against `[string](b: string)`. */
  lemma DictOfStructsExample(ms: seq<Member>)
    requires Acyclic(ms)
    ensures var params := [Param("b", Bare(Named("string")))];
            var value := Object([Field("b", Str("x"))]);
            && Validate(ms, value, Bare(Struct(params))).Accept?
            && !Validate(ms, Object([Field("k", value)]), TypeSpec(Struct(params), false, true, false)).Accept?
  {
    var p := Param("b", Bare(Named("string")));
    var value := Object([Field("b", Str("x"))]);
    var dict := Object([Field("k", value)]);
    var t := TypeSpec(Struct([p]), false, true, false);
    assert Get(value, "b") == Some(Str("x"));
    NamedElement(ms, Str("x"), "string");
    assert Leaves(Str("x"), p.spec) == {Str("x")};
    assert IsElement(ms, Str("x"), p.spec.ty);
    assert Conforms(ms, Str("x"), p.spec, false);
    assert FieldConforms(ms, value, p);
    assert IsElement(ms, value, Struct([p]));
    assert Leaves(value, Bare(Struct([p]))) == {value};
    DictOfStructs(ms, dict, t);
    assert Child(value, 0) == Str("x") && Leaves(Str("x"), t) == {Str("x")};
    assert Str("x") in Leaves(value, t);
    assert Child(dict, 0) == value;
    assert Str("x") in Leaves(dict, t);
  }
}
