/**
 `varlink_interface::validate` (source/interface.cpp:38-98), which checks a JSON value
 against a type whose names refer to the `type` members of the interface.

 The C++ function throws `invalid_parameter`; here it returns the verdict, with the
 exception's text kept symbolic. It recurses, and on some interfaces it recurses for ever,
 so the model counts the depth of the call stack: `TooDeep` means that the verdict needs
 more than `depth` nested calls.
 */
module Validator {
  import opened Wrappers
  import opened JsonValues
  import opened TypeSpecs

  datatype What = DumpOf(data: Json) | NameOf(name: string)

  datatype Verdict = Accept | Reject(what: What) | TooDeep

  function FindType(ms: seq<Member>, name: string): Option<TypeSpec> {
    match FindMember(ms, name, TypeMember)
    case Some(m) => Some(m.data)
    case None => None
  }

  predicate IsPrimitive(d: Json, ty: string) {
    || (ty == "string" && d.Str?)
    || (ty == "int" && d.Int?)
    || (ty == "float" && (d.Int? || d.Float?))
    || (ty == "bool" && d.Bool?)
    || (ty == "object" && !d.Null?)
  }

  function ValidateIn(depth: nat, ms: seq<Member>, d: Json, t: TypeSpec, name: string, collection: bool): Verdict
    decreases depth, 1
  {
    if depth == 0 then TooDeep
    else if t.ty.Enum? && d.Str? then
      if d.s in t.ty.values then Accept else Reject(DumpOf(d))
    else if t.dictType && d.Object? then
      ValidateChildren(depth - 1, ms, d, 0, t, name)
    else if t.arrayType && d.Array? then
      ValidateChildren(depth - 1, ms, d, 0, t, name)
    else if t.ty.Named? && (collection || !Flagged(t)) then
      if IsPrimitive(d, t.ty.name) then Accept
      else
        match FindType(ms, t.ty.name)
        case Some(alias) => ValidateIn(depth - 1, ms, d, alias, name, false)
        case None => Reject(NameOf(name))
    else if t.ty.Struct? && d.Object? then
      ValidateParams(depth - 1, ms, d, t.ty.params)
    else Reject(DumpOf(d))
  }

  /** The loops over the values of an array or object: the same spec again, as a collection. */
  function ValidateChildren(depth: nat, ms: seq<Member>, d: Json, k: nat, t: TypeSpec, name: string): Verdict
    requires k <= NumChildren(d)
    decreases depth, 2, NumChildren(d) - k
  {
    if k == NumChildren(d) then Accept
    else
      var v := ValidateIn(depth, ms, Child(d, k), t, name, true);
      if v.Accept? then ValidateChildren(depth, ms, d, k + 1, t, name) else v
  }

  /** The loop over the fields of a struct type. */
  function ValidateParams(depth: nat, ms: seq<Member>, d: Json, params: seq<Param>): Verdict
    requires d.Object?
    decreases depth, 2, |params|
  {
    if params == [] then Accept
    else
      var v := ValidateParam(depth, ms, d, params[0]);
      if v.Accept? then ValidateParams(depth, ms, d, params[1..]) else v
  }

  /** One field: absent or null is for optional fields only. */
  function ValidateParam(depth: nat, ms: seq<Member>, d: Json, p: Param): Verdict
    requires d.Object?
    decreases depth, 2, 0
  {
    var value := Get(d, p.name);
    if value.None? || value.value.Null? then
      if p.spec.maybeType then Accept else Reject(NameOf(p.name))
    else ValidateIn(depth, ms, value.value, p.spec, p.name, false)
  }

  // ----- Chains of bare aliases -----

  /** The next name, when `name` is a type that stands for just another name. */
  function AliasOf(ms: seq<Member>, name: string): Option<string> {
    match FindType(ms, name)
    case Some(t) => if t.ty.Named? && !Flagged(t) then Some(t.ty.name) else None
    case None => None
  }

  /** Following aliases from `name`, the check of `d` stops within `k` steps. */
  predicate Stops(ms: seq<Member>, d: Json, name: string, k: nat)
    decreases k
  {
    || IsPrimitive(d, name)
    || match AliasOf(ms, name)
       case None => true
       case Some(next) => k > 0 && Stops(ms, d, next, k - 1)
  }

  /**
   No member starts a chain of bare aliases longer than the member list: there is no cycle.
   `null` is of no primitive type, so that only the end of a chain can stop it.
   */
  predicate Acyclic(ms: seq<Member>) {
    forall m | m in ms :: Stops(ms, Null, m.name, |ms|)
  }

  /** The number of alias steps from `name`, counted up to `k`. */
  function LookupSteps(ms: seq<Member>, d: Json, name: string, k: nat): (n: nat)
    ensures n <= k
    decreases k
  {
    if IsPrimitive(d, name) || AliasOf(ms, name).None? || k == 0 then 0
    else 1 + LookupSteps(ms, d, AliasOf(ms, name).value, k - 1)
  }

  lemma StopsMonotone(ms: seq<Member>, d: Json, name: string, k: nat, k': nat)
    requires Stops(ms, d, name, k) && k <= k'
    ensures Stops(ms, d, name, k')
    ensures LookupSteps(ms, d, name, k') == LookupSteps(ms, d, name, k)
    decreases k
  {
    if !IsPrimitive(d, name) && AliasOf(ms, name).Some? {
      StopsMonotone(ms, d, AliasOf(ms, name).value, k - 1, k' - 1);
    }
  }

  lemma {:induction false} NullStopsLast(ms: seq<Member>, d: Json, name: string, k: nat)
    requires Stops(ms, Null, name, k)
    ensures Stops(ms, d, name, k)
    decreases k
  {
    if AliasOf(ms, name).Some? {
      NullStopsLast(ms, d, AliasOf(ms, name).value, k - 1);
    }
  }

  lemma EveryChainStops(ms: seq<Member>, d: Json, name: string)
    requires Acyclic(ms)
    ensures Stops(ms, d, name, |ms|)
  {
    if AliasOf(ms, name).Some? {
      var m := FindMember(ms, name, TypeMember).value;
      assert m in ms;
      NullStopsLast(ms, d, name, |ms|);
    }
  }

  lemma LookupStep(ms: seq<Member>, d: Json, name: string)
    requires Stops(ms, d, name, |ms|) && !IsPrimitive(d, name) && AliasOf(ms, name).Some?
    ensures LookupSteps(ms, d, name, |ms|) == 1 + LookupSteps(ms, d, AliasOf(ms, name).value, |ms|)
  {
    StopsMonotone(ms, d, AliasOf(ms, name).value, |ms| - 1, |ms|);
  }

  /** The names passed in the first `k` steps of the chain. */
  ghost function Passed(ms: seq<Member>, d: Json, name: string, k: nat): set<string>
    decreases k
  {
    if IsPrimitive(d, name) || AliasOf(ms, name).None? || k == 0 then {}
    else {name} + Passed(ms, d, AliasOf(ms, name).value, k - 1)
  }

  lemma OneStep(ms: seq<Member>, d: Json, name: string, k: nat)
    requires Stops(ms, d, name, k) && !IsPrimitive(d, name) && AliasOf(ms, name).Some?
    ensures var next := AliasOf(ms, name).value;
            && k > 0 && Stops(ms, d, next, k - 1)
            && LookupSteps(ms, d, name, k) == 1 + LookupSteps(ms, d, next, k - 1)
            && Passed(ms, d, name, k) == {name} + Passed(ms, d, next, k - 1)
  {
  }

  lemma NoStep(ms: seq<Member>, d: Json, name: string, k: nat)
    requires IsPrimitive(d, name) || AliasOf(ms, name).None?
    ensures LookupSteps(ms, d, name, k) == 0 && Passed(ms, d, name, k) == {}
  {
  }

  lemma {:induction false} PassedStops(ms: seq<Member>, d: Json, name: string, k: nat, x: string)
    requires Stops(ms, d, name, k) && x in Passed(ms, d, name, k)
    ensures Stops(ms, d, x, k) && LookupSteps(ms, d, x, k) <= LookupSteps(ms, d, name, k)
    decreases k
  {
    hide AliasOf, IsPrimitive, Stops, LookupSteps, Passed;
    if !IsPrimitive(d, name) && AliasOf(ms, name).Some? {
      OneStep(ms, d, name, k);
      if x != name {
        PassedStops(ms, d, AliasOf(ms, name).value, k - 1, x);
        StopsMonotone(ms, d, x, k - 1, k);
      }
    } else {
      NoStep(ms, d, name, k);
    }
  }

  lemma {:induction false} PassedAreMembers(ms: seq<Member>, d: Json, name: string, k: nat, x: string)
    requires x in Passed(ms, d, name, k)
    ensures exists m :: m in ms && m.name == x
    decreases k
  {
    if x == name {
      var m := FindMember(ms, name, TypeMember).value;
      assert m in ms && m.name == name;
    } else {
      PassedAreMembers(ms, d, AliasOf(ms, name).value, k - 1, x);
    }
  }

  /** A chain that stops passes as many distinct names as it has steps. */
  lemma {:induction false} PassedAreDistinct(ms: seq<Member>, d: Json, name: string, k: nat)
    requires Stops(ms, d, name, k)
    ensures |Passed(ms, d, name, k)| == LookupSteps(ms, d, name, k)
    decreases k
  {
    hide AliasOf, IsPrimitive, Stops, LookupSteps, Passed;
    if !IsPrimitive(d, name) && AliasOf(ms, name).Some? {
      var next := AliasOf(ms, name).value;
      OneStep(ms, d, name, k);
      PassedAreDistinct(ms, d, next, k - 1);
      if name in Passed(ms, d, next, k - 1) {
        PassedStops(ms, d, next, k - 1, name);
        StopsMonotone(ms, d, name, k - 1, k);
      }
    } else {
      NoStep(ms, d, name, k);
    }
  }

  lemma NamesAreFew(ms: seq<Member>, names: set<string>)
    requires forall x | x in names :: exists m :: m in ms && m.name == x
    ensures |names| <= |ms|
  {
    if names != {} {
      var x :| x in names;
      var i :| 0 <= i < |ms| && ms[i].name == x;
      var rest := ms[..i] + ms[i + 1..];
      forall y | y in names - {x} ensures exists m :: m in rest && m.name == y {
        var m :| m in ms && m.name == y;
        var j :| 0 <= j < |ms| && ms[j] == m;
        assert m in rest by { if j < i { assert rest[j] == m; } else { assert rest[j - 1] == m; } }
      }
      NamesAreFew(rest, names - {x});
    }
  }

  /** If a chain stops at all, it stops within as many steps as there are members. */
  lemma ChainsAreShort(ms: seq<Member>, d: Json, name: string, k: nat)
    requires Stops(ms, d, name, k)
    ensures Stops(ms, d, name, |ms|)
  {
    PassedAreDistinct(ms, d, name, k);
    forall x | x in Passed(ms, d, name, k) ensures exists m :: m in ms && m.name == x {
      PassedAreMembers(ms, d, name, k, x);
    }
    NamesAreFew(ms, Passed(ms, d, name, k));
    StopsAtItsLength(ms, d, name, k);
    StopsMonotone(ms, d, name, LookupSteps(ms, d, name, k), |ms|);
  }

  lemma StopsAtItsLength(ms: seq<Member>, d: Json, name: string, k: nat)
    requires Stops(ms, d, name, k)
    ensures Stops(ms, d, name, LookupSteps(ms, d, name, k))
    decreases k
  {
    if !IsPrimitive(d, name) && AliasOf(ms, name).Some? {
      StopsAtItsLength(ms, d, AliasOf(ms, name).value, k - 1);
    }
  }

  // ----- Verdicts do not depend on the depth -----

  /** `d` is a container of a kind that `t` flags, so that only what is inside it counts. */
  predicate Cut(d: Json, t: TypeSpec) {
    (t.dictType && d.Object?) || (t.arrayType && d.Array?)
  }

  /** Whether checking `d` against `t` may look up the name of `t`. */
  predicate LooksUp(t: TypeSpec, collection: bool) {
    t.ty.Named? && (collection || !Flagged(t))
  }

  /** More stack does not change a verdict. */
  lemma {:induction false} VerdictIsStable(depth: nat, depth': nat, ms: seq<Member>, d: Json, t: TypeSpec, name: string, coll: bool)
    requires depth <= depth' && !ValidateIn(depth, ms, d, t, name, coll).TooDeep?
    ensures ValidateIn(depth', ms, d, t, name, coll) == ValidateIn(depth, ms, d, t, name, coll)
    decreases depth, 1
  {
    if t.ty.Enum? && d.Str? {
    } else if Cut(d, t) {
      ChildrenStable(depth - 1, depth' - 1, ms, d, 0, t, name);
    } else if LooksUp(t, coll) {
      if !IsPrimitive(d, t.ty.name) && FindType(ms, t.ty.name).Some? {
        VerdictIsStable(depth - 1, depth' - 1, ms, d, FindType(ms, t.ty.name).value, name, false);
      }
    } else if t.ty.Struct? && d.Object? {
      ParamsStable(depth - 1, depth' - 1, ms, d, t.ty.params);
    }
  }

  lemma {:induction false} ChildrenStable(depth: nat, depth': nat, ms: seq<Member>, d: Json, k: nat, t: TypeSpec, name: string)
    requires depth <= depth' && k <= NumChildren(d) && !ValidateChildren(depth, ms, d, k, t, name).TooDeep?
    ensures ValidateChildren(depth', ms, d, k, t, name) == ValidateChildren(depth, ms, d, k, t, name)
    decreases depth, 2, NumChildren(d) - k
  {
    if k < NumChildren(d) {
      VerdictIsStable(depth, depth', ms, Child(d, k), t, name, true);
      if ValidateIn(depth, ms, Child(d, k), t, name, true).Accept? {
        ChildrenStable(depth, depth', ms, d, k + 1, t, name);
      }
    }
  }

  lemma {:induction false} ParamsStable(depth: nat, depth': nat, ms: seq<Member>, d: Json, params: seq<Param>)
    requires depth <= depth' && d.Object? && !ValidateParams(depth, ms, d, params).TooDeep?
    ensures ValidateParams(depth', ms, d, params) == ValidateParams(depth, ms, d, params)
    decreases depth, 2, |params|
  {
    if params != [] {
      var p := params[0];
      if Get(d, p.name).Some? && !Get(d, p.name).value.Null? {
        VerdictIsStable(depth, depth', ms, Get(d, p.name).value, p.spec, p.name, false);
      }
      if ValidateParam(depth, ms, d, p).Accept? {
        ParamsStable(depth, depth', ms, d, params[1..]);
      }
    }
  }

  lemma SameVerdict(depth: nat, depth': nat, ms: seq<Member>, d: Json, t: TypeSpec, name: string, coll: bool)
    requires !ValidateIn(depth, ms, d, t, name, coll).TooDeep? && !ValidateIn(depth', ms, d, t, name, coll).TooDeep?
    ensures ValidateIn(depth', ms, d, t, name, coll) == ValidateIn(depth, ms, d, t, name, coll)
  {
    if depth <= depth' {
      VerdictIsStable(depth, depth', ms, d, t, name, coll);
    } else {
      VerdictIsStable(depth', depth, ms, d, t, name, coll);
    }
  }

  // ----- Termination -----

  function AliasSteps(ms: seq<Member>, d: Json, t: TypeSpec, collection: bool): (n: nat)
    ensures n <= |ms| + 1
  {
    if LooksUp(t, collection) then 1 + LookupSteps(ms, d, t.ty.name, |ms|) else 0
  }

  /** A stack depth that suffices for every check of `d` against `t` that ends at all. */
  function StackBound(ms: seq<Member>, d: Json, t: TypeSpec, collection: bool): nat {
    (|ms| + 2) * Height(d) + AliasSteps(ms, d, t, collection) + 1
  }

  lemma BoundOfChild(ms: seq<Member>, d: Json, c: Json, t: TypeSpec, t': TypeSpec, coll: bool, coll': bool)
    requires Height(c) < Height(d)
    ensures StackBound(ms, c, t', coll') < StackBound(ms, d, t, coll)
  {
    OneMoreRow(|ms| + 2, Height(c), Height(d));
  }

  lemma OneMoreRow(n: nat, a: nat, b: nat)
    requires a < b
    ensures n * a + n <= n * b
    decreases b
  {
    assert n * b == n * (b - 1) + n;
    if a < b - 1 {
      OneMoreRow(n, a, b - 1);
    }
  }

  lemma AliasStepsDrop(ms: seq<Member>, d: Json, t: TypeSpec, collection: bool)
    requires LooksUp(t, collection) && !IsPrimitive(d, t.ty.name) && FindType(ms, t.ty.name).Some?
    requires Stops(ms, d, t.ty.name, |ms|)
    ensures AliasSteps(ms, d, FindType(ms, t.ty.name).value, false) < AliasSteps(ms, d, t, collection)
  {
    if AliasOf(ms, t.ty.name).Some? {
      LookupStep(ms, d, t.ty.name);
    }
  }

  lemma {:induction false} BoundSuffices(depth: nat, ms: seq<Member>, d: Json, t: TypeSpec, name: string, coll: bool)
    requires Acyclic(ms) && depth >= StackBound(ms, d, t, coll)
    ensures !ValidateIn(depth, ms, d, t, name, coll).TooDeep?
    decreases depth
  {
    hide Acyclic;
    if t.ty.Enum? && d.Str? {
    } else if Cut(d, t) {
      forall k | 0 <= k < NumChildren(d)
        ensures !ValidateIn(depth - 1, ms, Child(d, k), t, name, true).TooDeep?
      {
        HeightOfChild(d, k);
        BoundOfChild(ms, d, Child(d, k), t, t, coll, true);
        BoundSuffices(depth - 1, ms, Child(d, k), t, name, true);
      }
      ChildrenDecided(depth - 1, ms, d, 0, t, name);
    } else if LooksUp(t, coll) {
      if !IsPrimitive(d, t.ty.name) && FindType(ms, t.ty.name).Some? {
        EveryChainStops(ms, d, t.ty.name);
        AliasStepsDrop(ms, d, t, coll);
        BoundSuffices(depth - 1, ms, d, FindType(ms, t.ty.name).value, name, false);
      }
    } else if t.ty.Struct? && d.Object? {
      forall p | p in t.ty.params && Get(d, p.name).Some?
        ensures !ValidateIn(depth - 1, ms, Get(d, p.name).value, p.spec, p.name, false).TooDeep?
      {
        HeightOfField(d, p.name);
        BoundOfChild(ms, d, Get(d, p.name).value, t, p.spec, coll, false);
        BoundSuffices(depth - 1, ms, Get(d, p.name).value, p.spec, p.name, false);
      }
      ParamsDecided(depth - 1, ms, d, t.ty.params);
    }
  }

  lemma ChildrenDecided(depth: nat, ms: seq<Member>, d: Json, k: nat, t: TypeSpec, name: string)
    requires k <= NumChildren(d)
    requires forall j | k <= j < NumChildren(d) :: !ValidateIn(depth, ms, Child(d, j), t, name, true).TooDeep?
    ensures !ValidateChildren(depth, ms, d, k, t, name).TooDeep?
    decreases NumChildren(d) - k
  {
    if k < NumChildren(d) {
      ChildrenDecided(depth, ms, d, k + 1, t, name);
    }
  }

  lemma ParamsDecided(depth: nat, ms: seq<Member>, d: Json, params: seq<Param>)
    requires d.Object?
    requires forall p | p in params && Get(d, p.name).Some? ::
               !ValidateIn(depth, ms, Get(d, p.name).value, p.spec, p.name, false).TooDeep?
    ensures !ValidateParams(depth, ms, d, params).TooDeep?
    decreases |params|
  {
    if params != [] {
      assert params[0] in params;
      ParamsDecided(depth, ms, d, params[1..]);
    }
  }

  // ----- The bound decides, also where aliases form cycles -----

  lemma {:induction false} FinishedStops(depth: nat, ms: seq<Member>, d: Json, t: TypeSpec, name: string, coll: bool)
    requires LooksUp(t, coll) && !Cut(d, t) && !ValidateIn(depth, ms, d, t, name, coll).TooDeep?
    ensures Stops(ms, d, t.ty.name, depth)
    decreases depth
  {
    if !IsPrimitive(d, t.ty.name) && AliasOf(ms, t.ty.name).Some? {
      FinishedStops(depth - 1, ms, d, FindType(ms, t.ty.name).value, name, false);
    }
  }

  /** A check that ends at all ends within the bound, whatever the interface. */
  lemma {:induction false} BoundDecides(depth: nat, bound: nat, ms: seq<Member>, d: Json, t: TypeSpec, name: string, coll: bool)
    requires !ValidateIn(depth, ms, d, t, name, coll).TooDeep? && bound >= StackBound(ms, d, t, coll)
    ensures !ValidateIn(bound, ms, d, t, name, coll).TooDeep?
    decreases depth, 1
  {
    if t.ty.Enum? && d.Str? {
    } else if Cut(d, t) {
      forall k | 0 <= k < NumChildren(d) ensures bound - 1 >= StackBound(ms, Child(d, k), t, true) {
        HeightOfChild(d, k);
        BoundOfChild(ms, d, Child(d, k), t, t, coll, true);
      }
      ChildrenBounded(depth - 1, bound - 1, ms, d, 0, t, name);
    } else if LooksUp(t, coll) {
      if !IsPrimitive(d, t.ty.name) && FindType(ms, t.ty.name).Some? {
        FinishedStops(depth, ms, d, t, name, coll);
        ChainsAreShort(ms, d, t.ty.name, depth);
        AliasStepsDrop(ms, d, t, coll);
        BoundDecides(depth - 1, bound - 1, ms, d, FindType(ms, t.ty.name).value, name, false);
      }
    } else if t.ty.Struct? && d.Object? {
      forall p | p in t.ty.params && Get(d, p.name).Some?
        ensures bound - 1 >= StackBound(ms, Get(d, p.name).value, p.spec, false)
      {
        HeightOfField(d, p.name);
        BoundOfChild(ms, d, Get(d, p.name).value, t, p.spec, coll, false);
      }
      ParamsBounded(depth - 1, bound - 1, ms, d, t.ty.params);
    }
  }

  lemma {:induction false} ChildrenBounded(depth: nat, bound: nat, ms: seq<Member>, d: Json, k: nat, t: TypeSpec, name: string)
    requires k <= NumChildren(d) && !ValidateChildren(depth, ms, d, k, t, name).TooDeep?
    requires forall j | k <= j < NumChildren(d) :: bound >= StackBound(ms, Child(d, j), t, true)
    ensures !ValidateChildren(bound, ms, d, k, t, name).TooDeep?
    decreases depth, 2, NumChildren(d) - k
  {
    hide StackBound;
    if k < NumChildren(d) {
      BoundDecides(depth, bound, ms, Child(d, k), t, name, true);
      SameVerdict(depth, bound, ms, Child(d, k), t, name, true);
      if ValidateIn(depth, ms, Child(d, k), t, name, true).Accept? {
        ChildrenBounded(depth, bound, ms, d, k + 1, t, name);
      }
    }
  }

  lemma {:induction false} ParamsBounded(depth: nat, bound: nat, ms: seq<Member>, d: Json, params: seq<Param>)
    requires d.Object? && !ValidateParams(depth, ms, d, params).TooDeep?
    requires forall p | p in params && Get(d, p.name).Some? :: bound >= StackBound(ms, Get(d, p.name).value, p.spec, false)
    ensures !ValidateParams(bound, ms, d, params).TooDeep?
    decreases depth, 2, |params|
  {
    hide StackBound;
    if params != [] {
      var p := params[0];
      assert p in params;
      if Get(d, p.name).Some? && !Get(d, p.name).value.Null? {
        BoundDecides(depth, bound, ms, Get(d, p.name).value, p.spec, p.name, false);
        SameVerdict(depth, bound, ms, Get(d, p.name).value, p.spec, p.name, false);
      }
      if ValidateParam(depth, ms, d, p).Accept? {
        ParamsBounded(depth, bound, ms, d, params[1..]);
      }
    }
  }

  // ----- Cycles -----

  /** On a cyclic alias, checking `null` never comes back. */
  lemma {:induction false} CycleDiverges(depth: nat, ms: seq<Member>, n: string, name: string)
    requires forall k: nat :: !Stops(ms, Null, n, k)
    ensures ValidateIn(depth, ms, Null, Bare(Named(n)), name, false).TooDeep?
    decreases depth
  {
    if depth > 0 {
      assert !Stops(ms, Null, n, 0);
      var next := AliasOf(ms, n).value;
      forall k: nat ensures !Stops(ms, Null, next, k) {
        assert !Stops(ms, Null, n, k + 1);
      }
      CycleDiverges(depth - 1, ms, next, name);
      MaybeIsIgnored(depth - 1, ms, Null, FindType(ms, n).value, Bare(Named(next)), name, false);
    }
  }

  /** The `?` prefix plays no part in checking a value; only `ValidateParams` looks at it. */
  lemma MaybeIsIgnored(depth: nat, ms: seq<Member>, d: Json, t: TypeSpec, t': TypeSpec, name: string, coll: bool)
    requires t' == t.(maybeType := t'.maybeType)
    ensures ValidateIn(depth, ms, d, t, name, coll) == ValidateIn(depth, ms, d, t', name, coll)
    decreases depth, 0
  {
    if depth > 0 {
      MaybeIsIgnoredInChildren(depth - 1, ms, d, 0, t, t', name);
    }
  }

  lemma {:induction false} MaybeIsIgnoredInChildren(depth: nat, ms: seq<Member>, d: Json, k: nat, t: TypeSpec, t': TypeSpec, name: string)
    requires t' == t.(maybeType := t'.maybeType) && k <= NumChildren(d)
    ensures ValidateChildren(depth, ms, d, k, t, name) == ValidateChildren(depth, ms, d, k, t', name)
    decreases depth, 1, NumChildren(d) - k
  {
    if k < NumChildren(d) {
      MaybeIsIgnored(depth, ms, Child(d, k), t, t', name, true);
      MaybeIsIgnoredInChildren(depth, ms, d, k + 1, t, t', name);
    }
  }

  ghost predicate Terminates(ms: seq<Member>, d: Json, t: TypeSpec, name: string, coll: bool) {
    exists depth: nat :: !ValidateIn(depth, ms, d, t, name, coll).TooDeep?
  }

  /** `validate` returns on all values and types exactly when no bare aliases form a cycle. */
  lemma TerminatesIffAcyclic(ms: seq<Member>)
    ensures (forall d, t, name, coll :: Terminates(ms, d, t, name, coll)) <==> Acyclic(ms)
  {
    if Acyclic(ms) {
      forall d, t, name, coll ensures Terminates(ms, d, t, name, coll) {
        BoundSuffices(StackBound(ms, d, t, coll), ms, d, t, name, coll);
      }
    } else {
      var m :| m in ms && !Stops(ms, Null, m.name, |ms|);
      forall k: nat ensures !Stops(ms, Null, m.name, k) {
        if Stops(ms, Null, m.name, k) { ChainsAreShort(ms, Null, m.name, k); }
      }
      forall depth: nat ensures ValidateIn(depth, ms, Null, Bare(Named(m.name)), "", false).TooDeep? {
        CycleDiverges(depth, ms, m.name, "");
      }
      assert !Terminates(ms, Null, Bare(Named(m.name)), "", false);
    }
  }

  /** One call ends exactly when it ends within the bound. */
  lemma TerminatesWithinBound(ms: seq<Member>, d: Json, t: TypeSpec, name: string, coll: bool)
    ensures Terminates(ms, d, t, name, coll) <==> !ValidateIn(StackBound(ms, d, t, coll), ms, d, t, name, coll).TooDeep?
  {
    if Terminates(ms, d, t, name, coll) {
      var depth: nat :| !ValidateIn(depth, ms, d, t, name, coll).TooDeep?;
      BoundDecides(depth, StackBound(ms, d, t, coll), ms, d, t, name, coll);
    }
  }
}
