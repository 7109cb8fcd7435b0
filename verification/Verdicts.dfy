/** The verdicts of `validate` in plain terms: which values each kind of type takes, and why not. */
module Verdicts {
  import opened Wrappers
  import opened JsonValues
  import opened TypeSpecs
  import opened Validator
  import opened Conformance

  predicate DeclaresType(ms: seq<Member>, n: string) {
    exists m :: m in ms && m.kind.TypeMember? && m.name == n
  }

  lemma NoType(ms: seq<Member>, n: string)
    ensures FindType(ms, n).Some? <==> DeclaresType(ms, n)
  {
    var r := FindMember(ms, n, TypeMember);
    if r.Some? {
      assert r.value in ms;
    }
  }

  /** A verdict that one call of the function reaches is the verdict. */
  lemma OneCall(ms: seq<Member>, d: Json, t: TypeSpec)
    requires !ValidateIn(1, ms, d, t, "<root>", false).TooDeep?
    ensures Validate(ms, d, t) == ValidateIn(1, ms, d, t, "<root>", false)
  {
    hide ValidateIn;
  }

  // ----- Primitive types -----

  /** A name that the interface does not declare is one of five primitive types, or nothing. */
  lemma PrimitiveValues(ms: seq<Member>, d: Json, n: string)
    requires !DeclaresType(ms, n)
    ensures Validate(ms, d, Bare(Named(n)))
         == (match n
             case "string" => if d.Str? then Accept else Reject(NameOf("<root>"))
             case "int" => if d.Int? then Accept else Reject(NameOf("<root>"))
             case "float" => if d.Int? || d.Float? then Accept else Reject(NameOf("<root>"))
             case "bool" => if d.Bool? then Accept else Reject(NameOf("<root>"))
             case "object" => if d.Null? then Reject(NameOf("<root>")) else Accept
             case _ => Reject(NameOf("<root>")))
  {
    NoType(ms, n);
    OneCall(ms, d, Bare(Named(n)));
  }

  predicate PrimitiveName(n: string) {
    n in ["string", "int", "float", "bool", "object"]
  }

  /** A name that the interface declares, once, stands for the type declared. */
  lemma DeclaredType(ms: seq<Member>, m: Member, d: Json)
    requires m in ms && m.kind.TypeMember? && !PrimitiveName(m.name)
    requires forall k | k in ms && k.kind.TypeMember? && k.name == m.name :: k == m
    ensures Validate(ms, d, Bare(Named(m.name))) == Validate(ms, d, m.data)
  {
    var t := Bare(Named(m.name));
    assert FindType(ms, m.name) == Some(m.data) by {
      NoType(ms, m.name);
      assert FindMember(ms, m.name, TypeMember).value in ms;
    }
    forall k: nat ensures ValidateIn(k + 1, ms, d, t, "<root>", false) == ValidateIn(k, ms, d, m.data, "<root>", false) {
      NameStep(k, ms, d, m, t);
    }
    SameVerdicts(ms, d, t, m.data);
  }

  lemma NameStep(k: nat, ms: seq<Member>, d: Json, m: Member, t: TypeSpec)
    requires t == Bare(Named(m.name)) && !PrimitiveName(m.name) && FindType(ms, m.name) == Some(m.data)
    ensures ValidateIn(k + 1, ms, d, t, "<root>", false) == ValidateIn(k, ms, d, m.data, "<root>", false)
  {
    hide FindType;
    assert !IsPrimitive(d, m.name);
  }

  lemma SameVerdicts(ms: seq<Member>, d: Json, t: TypeSpec, t': TypeSpec)
    requires forall k: nat :: ValidateIn(k + 1, ms, d, t, "<root>", false) == ValidateIn(k, ms, d, t', "<root>", false)
    ensures Validate(ms, d, t) == Validate(ms, d, t')
  {
    hide ValidateIn, Validate;
    if Validate(ms, d, t').TooDeep? {
      forall k: nat ensures ValidateIn(k, ms, d, t, "<root>", false).TooDeep? {
        if k == 0 {
          NoStack(ms, d, t);
        } else {
          assert ValidateIn(k, ms, d, t, "<root>", false) == ValidateIn(k - 1, ms, d, t', "<root>", false);
        }
      }
    } else {
      var k: nat :| !ValidateIn(k, ms, d, t', "<root>", false).TooDeep?;
      assert ValidateIn(k + 1, ms, d, t, "<root>", false) == Validate(ms, d, t');
    }
  }

  lemma NoStack(ms: seq<Member>, d: Json, t: TypeSpec)
    ensures ValidateIn(0, ms, d, t, "<root>", false).TooDeep?
  {
  }

  // ----- Enums and prefixes -----

  /** An enum takes the strings that it lists. */
  lemma EnumValues(ms: seq<Member>, d: Json, values: seq<string>)
    ensures Validate(ms, d, Bare(Enum(values))) == if d.Str? && d.s in values then Accept else Reject(DumpOf(d))
  {
    OneCall(ms, d, Bare(Enum(values)));
  }

  /** A value that is not in a container does not do for a name with `[]` or `[string]`. */
  lemma FlaggedNeedsContainer(ms: seq<Member>, d: Json, t: TypeSpec)
    requires t.ty.Named? && (t.arrayType || t.dictType)
    requires !(t.arrayType && d.Array?) && !(t.dictType && d.Object?)
    ensures Validate(ms, d, t) == Reject(DumpOf(d))
  {
    OneCall(ms, d, t);
  }

  lemma {:induction false} AllItems(ms: seq<Member>, items: seq<Json>, t: TypeSpec)
    requires t.arrayType && forall x | x in items :: !x.Array? && !(t.dictType && x.Object?)
    ensures Conforms(ms, Array(items), t, false) <==> forall x | x in items :: Conforms(ms, x, Bare(t.ty), false)
  {
    var d := Array(items);
    forall k | 0 <= k < NumChildren(d) ensures Child(d, k) == items[k] && !Cut(Child(d, k), t) {
      assert items[k] in items;
    }
    OneLayer(ms, d, t);
  }

  /** `[]T` takes the arrays of values of `T`, arrays in the array aside. */
  lemma ArrayOfValues(ms: seq<Member>, items: seq<Json>, ty: Type)
    requires Acyclic(ms) && forall x | x in items :: !x.Array?
    ensures Validate(ms, Array(items), TypeSpec(ty, false, false, true)).Accept?
       <==> forall x | x in items :: Validate(ms, x, Bare(ty)).Accept?
  {
    hide Validate, Conforms;
    AllItems(ms, items, TypeSpec(ty, false, false, true));
  }

  /** `[string]T` takes the objects whose values are values of `T`, objects in the object aside. */
  lemma DictOfValues(ms: seq<Member>, fields: seq<Field>, ty: Type)
    requires Acyclic(ms) && forall f | f in fields :: !f.value.Object?
    ensures Validate(ms, Object(fields), TypeSpec(ty, false, true, false)).Accept?
       <==> forall f | f in fields :: Validate(ms, f.value, Bare(ty)).Accept?
  {
    hide Validate, Conforms;
    var d, t := Object(fields), TypeSpec(ty, false, true, false);
    forall k | 0 <= k < NumChildren(d) ensures Child(d, k) == fields[k].value && !Cut(Child(d, k), t) {
      assert fields[k] in fields;
    }
    OneLayer(ms, d, t);
    if forall k | 0 <= k < NumChildren(d) :: Conforms(ms, Child(d, k), Bare(ty), false) {
      forall f | f in fields ensures Conforms(ms, f.value, Bare(ty), false) {
        var k :| 0 <= k < |fields| && fields[k] == f;
        assert Conforms(ms, Child(d, k), Bare(ty), false);
      }
    }
  }

  // ----- Structs -----

  /** A field that is required, and absent or null. */
  predicate Missing(fields: seq<Field>, p: Param) {
    !p.spec.maybeType && forall f | f in fields && f.key == p.name :: f.value.Null?
  }

  /** A struct takes the objects, other keys aside, in which no field is missing or wrong. */
  lemma StructValues(ms: seq<Member>, fields: seq<Field>, params: seq<Param>)
    requires Acyclic(ms) && forall j, k | 0 <= j < k < |fields| :: fields[j].key != fields[k].key
    ensures Validate(ms, Object(fields), Bare(Struct(params))).Accept?
       <==> forall p | p in params ::
              && !Missing(fields, p)
              && forall f | f in fields && f.key == p.name && !f.value.Null? :: Validate(ms, f.value, p.spec).Accept?
  {
    hide Validate, Missing, Acyclic;
    var d := Object(fields);
    StructConforms(ms, d, params);
    forall p | p in params
      ensures FieldConforms(ms, d, p)
         <==> !Missing(fields, p) && forall f | f in fields && f.key == p.name && !f.value.Null? :: Validate(ms, f.value, p.spec).Accept?
    {
      FieldValues(ms, fields, p);
    }
  }

  lemma StructConforms(ms: seq<Member>, d: Json, params: seq<Param>)
    requires d.Object?
    ensures Conforms(ms, d, Bare(Struct(params)), false) <==> forall p | p in params :: FieldConforms(ms, d, p)
  {
    hide FieldConforms;
    var t := Bare(Struct(params));
    assert Leaves(d, t) == {d} && d in Leaves(d, t);
    assert IsElement(ms, d, t.ty) <==> forall p | p in params :: FieldConforms(ms, d, p);
  }

  lemma FieldValues(ms: seq<Member>, fields: seq<Field>, p: Param)
    requires Acyclic(ms) && forall j, k | 0 <= j < k < |fields| :: fields[j].key != fields[k].key
    ensures FieldConforms(ms, Object(fields), p)
       <==> !Missing(fields, p) && forall f | f in fields && f.key == p.name && !f.value.Null? :: Validate(ms, f.value, p.spec).Accept?
  {
    hide Validate, Acyclic, Conforms;
    var found := Get(Object(fields), p.name);
    if found.Some? {
      var f := Field(p.name, found.value);
      assert f in fields;
      forall g | g in fields && g.key == p.name ensures g == f {
        var j :| 0 <= j < |fields| && fields[j] == f;
        var k :| 0 <= k < |fields| && fields[k] == g;
        assert j == k;
      }
    }
  }

  /**
   The first field that is missing or wrong is the one that the exception is about: by its
   name if it is missing, else as the check of its value under its name says.
   */
  lemma FirstBadField(ms: seq<Member>, d: Json, params: seq<Param>, k: nat)
    requires Acyclic(ms) && d.Object? && k < |params|
    requires forall j | 0 <= j < k :: FieldConforms(ms, d, params[j])
    requires !FieldConforms(ms, d, params[k])
    ensures var value := Get(d, params[k].name);
            if value.None? || value.value.Null? then
              Validate(ms, d, Bare(Struct(params))) == Reject(NameOf(params[k].name))
            else
              forall depth: nat | !ValidateIn(depth, ms, value.value, params[k].spec, params[k].name, false).TooDeep? ::
                Validate(ms, d, Bare(Struct(params))) == ValidateIn(depth, ms, value.value, params[k].spec, params[k].name, false)
  {
    hide Validate, ValidateIn, ValidateParams, FieldConforms, Acyclic, StackBound;
    var t := Bare(Struct(params));
    var bound := StackBound(ms, d, t, false);
    StructStep(bound, ms, d, params);
    forall p | p in params && Get(d, p.name).Some? ensures !ValidateIn(bound - 1, ms, Get(d, p.name).value, p.spec, p.name, false).TooDeep? {
      HeightOfField(d, p.name);
      BoundOfChild(ms, d, Get(d, p.name).value, t, p.spec, false, false);
      BoundSuffices(bound - 1, ms, Get(d, p.name).value, p.spec, p.name, false);
    }
    BoundSuffices(bound, ms, d, t, "<root>", false);
    FirstBadParam(bound - 1, ms, d, params, k);
    var value := Get(d, params[k].name);
    if value.None? || value.value.Null? {
      MissingVerdict(bound - 1, ms, d, params[k]);
    } else {
      ValueVerdict(bound - 1, ms, d, params[k]);
      forall depth: nat | !ValidateIn(depth, ms, value.value, params[k].spec, params[k].name, false).TooDeep?
        ensures Validate(ms, d, t) == ValidateIn(depth, ms, value.value, params[k].spec, params[k].name, false)
      {
        SameVerdict(bound - 1, depth, ms, value.value, params[k].spec, params[k].name, false);
      }
    }
  }

  lemma StructStep(bound: nat, ms: seq<Member>, d: Json, params: seq<Param>)
    requires bound == StackBound(ms, d, Bare(Struct(params)), false) && d.Object?
    ensures bound > 0 && ValidateIn(bound, ms, d, Bare(Struct(params)), "<root>", false) == ValidateParams(bound - 1, ms, d, params)
  {
    hide ValidateParams;
  }

  lemma MissingVerdict(depth: nat, ms: seq<Member>, d: Json, p: Param)
    requires d.Object? && (Get(d, p.name).None? || Get(d, p.name).value.Null?) && !FieldConforms(ms, d, p)
    ensures ValidateParam(depth, ms, d, p) == Reject(NameOf(p.name))
  {
  }

  lemma ValueVerdict(depth: nat, ms: seq<Member>, d: Json, p: Param)
    requires d.Object? && Get(d, p.name).Some? && !Get(d, p.name).value.Null?
    ensures ValidateParam(depth, ms, d, p) == ValidateIn(depth, ms, Get(d, p.name).value, p.spec, p.name, false)
  {
    hide ValidateIn;
  }

  lemma {:induction false} FirstBadParam(depth: nat, ms: seq<Member>, d: Json, params: seq<Param>, k: nat)
    requires d.Object? && k < |params|
    requires forall j | 0 <= j < k :: FieldConforms(ms, d, params[j])
    requires !FieldConforms(ms, d, params[k])
    requires forall p | p in params && Get(d, p.name).Some? :: !ValidateIn(depth, ms, Get(d, p.name).value, p.spec, p.name, false).TooDeep?
    ensures ValidateParams(depth, ms, d, params) == ValidateParam(depth, ms, d, params[k])
    decreases k
  {
    hide ValidateIn, FieldConforms;
    assert params[0] in params;
    ParamVerdict(depth, ms, d, params[0]);
    if k > 0 {
      assert params[1..][k - 1] == params[k];
      FirstBadParam(depth, ms, d, params[1..], k - 1);
    }
  }
}
