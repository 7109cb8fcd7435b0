/** Making a type more permissive never turns an accepted value into a rejected one. */
module Weakening {
  import opened JsonValues
  import opened TypeSpecs
  import opened Validator
  import opened Conformance

  /**
   `b` is `a` made more permissive anywhere inside, under the same `[]` and `[string]`
   prefixes: `int` became `float`, a name became `object`, an enum grew, a struct lost
   fields, or a required field became optional.
   */
  ghost predicate Weaker(a: TypeSpec, b: TypeSpec)
    decreases a
  {
    && a.arrayType == b.arrayType
    && a.dictType == b.dictType
    && (match a.ty
        case Invalid => true
        case Named(n) =>
          b.ty.Named? && (b.ty.name == n || b.ty.name == "object" || (n == "int" && b.ty.name == "float"))
        case Enum(values) =>
          || (b.ty.Enum? && forall v | v in values :: v in b.ty.values)
          || (b.ty == Named("object") && !Flagged(a))
        case Struct(params) =>
          || (b.ty.Struct? && forall q | q in b.ty.params ::
                exists p :: p in params && p.name == q.name && (p.spec.maybeType ==> q.spec.maybeType) && Weaker(p.spec, q.spec))
          || (b.ty == Named("object") && !Flagged(a)))
  }

  /** Every type of the interface is kept or weakened, and none of them is called `int`. */
  ghost predicate WeakerTypes(ms: seq<Member>, ms': seq<Member>) {
    && FindType(ms, "int").None?
    && forall n | FindType(ms, n).Some? ::
         FindType(ms', n).Some? && Weaker(FindType(ms, n).value, FindType(ms', n).value)
  }

  lemma {:induction false} WeakerAcceptsMore(ms: seq<Member>, ms': seq<Member>, d: Json, a: TypeSpec, b: TypeSpec, coll: bool)
    requires WeakerTypes(ms, ms') && Weaker(a, b) && Conforms(ms, d, a, coll)
    ensures Conforms(ms', d, b, coll)
    decreases d, if Cut(d, a) then 0 else if LooksUp(a, coll) then 4 else 1
  {
    SameLeaves(d, a, b);
    assert b.ty.Named? && !LooksUp(b, coll) && !Cut(d, b) ==> false by {
      assert !Cut(d, a) ==> d in Leaves(d, a);
    }
    forall l | l in Leaves(d, b) ensures IsElement(ms', l, b.ty) {
      WeakerElement(ms, ms', l, a, b);
    }
  }

  lemma SameLeaves(d: Json, a: TypeSpec, b: TypeSpec)
    requires a.arrayType == b.arrayType && a.dictType == b.dictType
    ensures Leaves(d, a) == Leaves(d, b)
    decreases d
  {
    if Cut(d, a) {
      forall k | 0 <= k < NumChildren(d) ensures Leaves(Child(d, k), a) == Leaves(Child(d, k), b) {
        SameLeaves(Child(d, k), a, b);
      }
    }
  }

  lemma {:induction false} WeakerElement(ms: seq<Member>, ms': seq<Member>, l: Json, a: TypeSpec, b: TypeSpec)
    requires WeakerTypes(ms, ms') && Weaker(a, b) && IsElement(ms, l, a.ty)
    ensures IsElement(ms', l, b.ty)
    decreases l, if a.ty.Named? then 3 else 0, 1
  {
    ElementsAreNotNull(ms, l, a.ty);
    match a.ty
    case Invalid =>
    case Enum(values) => ObjectsAreElements(ms', l);
    case Named(n) =>
      WeakerReaches(ms, ms', l, n, |ms|);
      WeakerName(ms, ms', l, n, b.ty.name, |ms|);
    case Struct(params) =>
      if b.ty.Struct? {
        forall q | q in b.ty.params ensures FieldConforms(ms', l, q) {
          var p :| p in params && p.name == q.name && (p.spec.maybeType ==> q.spec.maybeType) && Weaker(p.spec, q.spec);
          assert FieldConforms(ms, l, p);
          if Get(l, p.name).Some? && !Get(l, p.name).value.Null? {
            WeakerAcceptsMore(ms, ms', Get(l, p.name).value, p.spec, q.spec, false);
          }
        }
      } else {
        ObjectsAreElements(ms', l);
      }
  }

  lemma ObjectsAreElements(ms: seq<Member>, l: Json)
    requires !l.Null?
    ensures IsElement(ms, l, Named("object"))
  {
    NamedElement(ms, l, "object");
  }

  /** What a name stands for in the weaker interface, or `object`, or `float` instead of `int`. */
  lemma WeakerName(ms: seq<Member>, ms': seq<Member>, l: Json, n: string, n': string, k: nat)
    requires WeakerTypes(ms, ms') && Reaches(ms, l, n, k) && IsElement(ms', l, Named(n)) && !l.Null?
    requires n' == n || n' == "object" || (n == "int" && n' == "float")
    ensures IsElement(ms', l, Named(n'))
  {
    if n' == "object" {
      ObjectsAreElements(ms', l);
    } else if n' != n {
      assert IsPrimitive(l, "int");
      NamedElement(ms', l, "float");
    }
  }

  /** The aliases that lead to a type for `l` lead to one in the weaker interface, too. */
  lemma {:induction false} WeakerReaches(ms: seq<Member>, ms': seq<Member>, l: Json, n: string, k: nat)
    requires WeakerTypes(ms, ms') && Reaches(ms, l, n, k)
    ensures IsElement(ms', l, Named(n))
    decreases l, 2, k
  {
    NamedElement(ms', l, n);
    if !IsPrimitive(l, n) {
      var t, t' := FindType(ms, n).value, FindType(ms', n).value;
      if AliasOf(ms, n).Some? {
        WeakerReaches(ms, ms', l, t.ty.name, k - 1);
        ReachesAnyhow(ms, l, t.ty.name, k - 1);
        ElementsAreNotNull(ms, l, t.ty);
        WeakerName(ms, ms', l, t.ty.name, t'.ty.name, k - 1);
        assert Leaves(l, t') == {l};
      } else {
        WeakerAcceptsMore(ms, ms', l, t, t', false);
      }
    }
  }

  lemma ElementsAreNotNull(ms: seq<Member>, l: Json, ty: Type)
    requires IsElement(ms, l, ty)
    ensures !l.Null?
  {
    NullIsNoElement(ms, ty);
  }

  /** The same about the verdicts of the code, if the weaker check comes back. */
  lemma ValidateIsMonotone(ms: seq<Member>, ms': seq<Member>, d: Json, a: TypeSpec, b: TypeSpec)
    requires WeakerTypes(ms, ms') && Weaker(a, b)
    ensures Validate(ms, d, a).Accept? ==> Validate(ms', d, b).Accept? || Validate(ms', d, b).TooDeep?
    ensures Validate(ms, d, a).Accept? && Acyclic(ms') ==> Validate(ms', d, b).Accept?
  {
    if Validate(ms, d, a).Accept? {
      WeakerAcceptsMore(ms, ms', d, a, b, false);
    }
  }
}
