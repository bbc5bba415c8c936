/**
  The JSON-schema rewriting and validation of internal/llm/parser.go.

  `Rewrite` is the recursive transformation that makes optional properties
  nullable and, for strict providers, makes every property required.  It visits
  every sub-schema of an object or array twice: once in the sweep over all
  keywords and once more, on the already rewritten copy, when the parent's own
  "type" is inspected.  `Issues` is the hand-written validator.
 */
module Schemas {

  /** The "type" keyword: absent, one name, or a list of names. */
  datatype TypeKeyword = NoType | One(name: string) | Many(names: seq<string>)

  datatype Items = NoItems | Items(schema: Schema)

  /** "additionalProperties": absent, or a boolean. */
  datatype Additional = Unstated | Stated(allowed: bool)

  datatype Schema = Schema(
    typ: TypeKeyword,
    props: map<string, Schema>,
    required: set<string>,
    items: Items,
    additional: Additional)

  datatype Value =
    | Null
    | Bool(b: bool)
    | Num(n: real)
    | Str(s: string)
    | List(elems: seq<Value>)
    | Object(fields: map<string, Value>)

  // ----- The "type" keyword

  function FirstNonNull(names: seq<string>): string {
    if names == [] then "" else if names[0] != "null" then names[0] else FirstNonNull(names[1..])
  }

  function TypeName(t: TypeKeyword): string {
    match t
    case NoType => ""
    case One(name) => name
    case Many(names) => FirstNonNull(names)
  }

  /** Only a list can allow null: the single name "null" does not. */
  predicate AllowsNull(t: TypeKeyword) {
    t.Many? && "null" in t.names
  }

  function AppendNull(t: TypeKeyword): (r: TypeKeyword)
    ensures AllowsNull(r)
  {
    match t
    case NoType => Many(["null"])
    case One(name) => if name == "null" then Many(["null"]) else Many([name, "null"])
    case Many(names) => if "null" in names then t else Many(names + ["null"])
  }

  lemma {:induction false} FirstNonNullAppend(names: seq<string>)
    ensures FirstNonNull(names + ["null"]) == FirstNonNull(names)
  {
    if names == [] {
      assert names + ["null"] == ["null"];
    } else {
      assert (names + ["null"])[1..] == names[1..] + ["null"];
      FirstNonNullAppend(names[1..]);
    }
  }

  /** Adding null never changes which container or scalar the type names. */
  lemma {:induction false} AppendNullTypeName(t: TypeKeyword)
    ensures t == One("null") || TypeName(AppendNull(t)) == TypeName(t)
    ensures t == One("null") ==> TypeName(AppendNull(t)) == ""
  {
    if t.Many? {
      FirstNonNullAppend(t.names);
    }
  }

  // ----- The rewrite

  /** The same nesting of properties and items; what a visit leaves alone. */
  predicate SameShape(s: Schema, shape: Schema) {
    && s.props.Keys == shape.props.Keys
    && (forall k | k in shape.props :: SameShape(s.props[k], shape.props[k]))
    && s.items.Items? == shape.items.Items?
    && (shape.items.Items? ==> SameShape(s.items.schema, shape.items.schema))
  }

  lemma {:induction false} SameShapeReflexive(s: Schema)
    ensures SameShape(s, s)
  {
    forall k | k in s.props ensures SameShape(s.props[k], s.props[k]) {
      SameShapeReflexive(s.props[k]);
    }
    if s.items.Items? {
      SameShapeReflexive(s.items.schema);
    }
  }

  /**
    transformJSONSchemaObject: a sweep over all keywords, then a second visit of
    the already swept children.  The shape is only there for termination.
   */
  function Visit(s: Schema, ghost shape: Schema, nullable: bool, requireAll: bool): (r: Schema)
    requires SameShape(s, shape)
    ensures SameShape(r, shape)
    decreases shape
  {
    var swept := map k | k in s.props :: Visit(s.props[k], shape.props[k], false, requireAll);
    var sweptItems :=
      if s.items.Items? then Items(Visit(s.items.schema, shape.items.schema, false, requireAll)) else NoItems;
    assert swept.Keys == s.props.Keys == shape.props.Keys;
    var name := TypeName(s.typ);
    var props :=
      if name == "object"
      then map k | k in swept :: Visit(swept[k], shape.props[k], k !in s.required, requireAll)
      else swept;
    var items :=
      if name == "array" && sweptItems.Items?
      then Items(Visit(sweptItems.schema, shape.items.schema, false, requireAll))
      else sweptItems;
    var required := if name == "object" && requireAll then props.Keys else s.required;
    Schema(if nullable then AppendNull(s.typ) else s.typ, props, required, items, s.additional)
  }

  function Rewrite(s: Schema, nullable: bool, requireAll: bool): Schema {
    SameShapeReflexive(s);
    Visit(s, s, nullable, requireAll)
  }

  /** What the rewrite means, in one structural pass. */
  function OnePass(s: Schema, nullable: bool, requireAll: bool): Schema {
    var isObject := TypeName(s.typ) == "object";
    Schema(
      if nullable then AppendNull(s.typ) else s.typ,
      map k | k in s.props :: OnePass(s.props[k], isObject && k !in s.required, requireAll),
      if isObject && requireAll then s.props.Keys else s.required,
      if s.items.Items? then Items(OnePass(s.items.schema, false, requireAll)) else NoItems,
      s.additional)
  }

  /** How a visit treats one property: swept first, then visited again under an object. */
  lemma {:induction false} VisitedProp(s: Schema, shape: Schema, nullable: bool, requireAll: bool, k: string)
    requires SameShape(s, shape) && k in s.props
    ensures
      var swept := Visit(s.props[k], shape.props[k], false, requireAll);
      Visit(s, shape, nullable, requireAll).props[k]
        == if TypeName(s.typ) == "object" then Visit(swept, shape.props[k], k !in s.required, requireAll) else swept
  {
  }

  lemma {:induction false} VisitedKeys(s: Schema, shape: Schema, nullable: bool, requireAll: bool)
    requires SameShape(s, shape)
    ensures Visit(s, shape, nullable, requireAll).props.Keys == s.props.Keys
  {
  }

  lemma {:induction false} SameProps(x: Schema, y: Schema)
    requires y.props.Keys == x.props.Keys && forall k | k in x.props :: y.props[k] == x.props[k]
    ensures y.props == x.props
  {
  }

  /**
    Revisiting an already rewritten schema only adds the null that is still
    missing, although the revisit reads a "required" list that was itself rewritten.
   */
  lemma {:induction false} RevisitAbsorbed(s: Schema, shape: Schema, before: bool, nullable: bool, requireAll: bool)
    requires SameShape(OnePass(s, before, requireAll), shape)
    ensures Visit(OnePass(s, before, requireAll), shape, nullable, requireAll)
         == OnePass(s, before || nullable, requireAll)
    decreases s
  {
    var x, y := OnePass(s, before, requireAll), Visit(OnePass(s, before, requireAll), shape, nullable, requireAll);
    AppendNullTypeName(s.typ);
    RevisitAbsorbedProps(s, shape, before, nullable, requireAll);
    RevisitAbsorbedItems(s, shape, before, nullable, requireAll);
    assert y.required == x.required;
  }

  lemma {:induction false} RevisitAbsorbedProps(
      s: Schema, shape: Schema, before: bool, nullable: bool, requireAll: bool)
    requires SameShape(OnePass(s, before, requireAll), shape)
    ensures Visit(OnePass(s, before, requireAll), shape, nullable, requireAll).props
         == OnePass(s, before, requireAll).props
    decreases s, 1
  {
    var x, y := OnePass(s, before, requireAll), Visit(OnePass(s, before, requireAll), shape, nullable, requireAll);
    VisitedKeys(x, shape, nullable, requireAll);
    forall k | k in x.props ensures y.props[k] == x.props[k] {
      RevisitAbsorbedProp(s, shape, before, nullable, requireAll, k);
    }
    SameProps(x, y);
  }

  lemma {:induction false} RevisitAbsorbedItems(
      s: Schema, shape: Schema, before: bool, nullable: bool, requireAll: bool)
    requires SameShape(OnePass(s, before, requireAll), shape)
    ensures Visit(OnePass(s, before, requireAll), shape, nullable, requireAll).items
         == OnePass(s, before, requireAll).items
    decreases s, 0
  {
    if s.items.Items? {
      RevisitAbsorbed(s.items.schema, shape.items.schema, false, false, requireAll);
    }
  }

  lemma {:induction false} RevisitAbsorbedProp(
      s: Schema, shape: Schema, before: bool, nullable: bool, requireAll: bool, k: string)
    requires SameShape(OnePass(s, before, requireAll), shape) && k in s.props
    ensures Visit(OnePass(s, before, requireAll), shape, nullable, requireAll).props[k]
         == OnePass(s, before, requireAll).props[k]
    decreases s, 0
  {
    var x := OnePass(s, before, requireAll);
    var optional := TypeName(s.typ) == "object" && k !in s.required;
    AppendNullTypeName(s.typ);
    assert x.props[k] == OnePass(s.props[k], optional, requireAll);
    RevisitAbsorbed(s.props[k], shape.props[k], optional, false, requireAll);
    RevisitAbsorbed(s.props[k], shape.props[k], optional, k !in x.required, requireAll);
    VisitedProp(x, shape, nullable, requireAll, k);
  }

  lemma {:induction false} VisitIsOnePass(s: Schema, shape: Schema, nullable: bool, requireAll: bool)
    requires SameShape(s, shape)
    ensures Visit(s, shape, nullable, requireAll) == OnePass(s, nullable, requireAll)
    decreases s
  {
    var x, y := OnePass(s, nullable, requireAll), Visit(s, shape, nullable, requireAll);
    forall k | k in s.props ensures y.props[k] == x.props[k] {
      VisitIsOnePassProp(s, shape, nullable, requireAll, k);
    }
    assert y.props == x.props;
    if s.items.Items? {
      VisitIsOnePass(s.items.schema, shape.items.schema, false, requireAll);
      RevisitAbsorbed(s.items.schema, shape.items.schema, false, false, requireAll);
    }
    assert y.items == x.items;
    assert y.required == x.required;
  }

  lemma {:induction false} VisitIsOnePassProp(s: Schema, shape: Schema, nullable: bool, requireAll: bool, k: string)
    requires SameShape(s, shape) && k in s.props
    ensures Visit(s, shape, nullable, requireAll).props[k] == OnePass(s, nullable, requireAll).props[k]
    decreases s, 0
  {
    VisitedProp(s, shape, nullable, requireAll, k);
    VisitIsOnePass(s.props[k], shape.props[k], false, requireAll);
    RevisitAbsorbed(s.props[k], shape.props[k], false, k !in s.required, requireAll);
  }

  /** The multi-pass rewrite computes exactly the one-pass specification. */
  lemma {:induction false} RewriteIsOnePass(s: Schema, nullable: bool, requireAll: bool)
    ensures Rewrite(s, nullable, requireAll) == OnePass(s, nullable, requireAll)
  {
    SameShapeReflexive(s);
    VisitIsOnePass(s, s, nullable, requireAll);
  }

  /** Rewriting twice is rewriting once; only a newly requested null can be added. */
  lemma {:induction false} RewriteIdempotent(s: Schema, first: bool, second: bool, requireAll: bool)
    ensures Rewrite(Rewrite(s, first, requireAll), second, requireAll) == Rewrite(s, first || second, requireAll)
  {
    var x := OnePass(s, first, requireAll);
    RewriteIsOnePass(s, first, requireAll);
    SameShapeReflexive(x);
    RevisitAbsorbed(s, x, first, second, requireAll);
    RewriteIsOnePass(s, first || second, requireAll);
  }

  /** Null is added to a property of an object schema exactly when it was optional. */
  lemma {:induction false} NullExactlyForOptional(s: Schema, nullable: bool, requireAll: bool, k: string)
    requires TypeName(s.typ) == "object" && k in s.props
    ensures k in Rewrite(s, nullable, requireAll).props
    ensures AllowsNull(Rewrite(s, nullable, requireAll).props[k].typ)
        <==> k !in s.required || AllowsNull(s.props[k].typ)
  {
    RewriteIsOnePass(s, nullable, requireAll);
  }

  // ----- Validation

  datatype Step = Field(name: string) | Index(i: nat)
  datatype Problem = MustBe(typ: string) | NotAllowed | Required
  datatype Issue = Issue(path: seq<Step>, problem: Problem)

  predicate IsIntegral(n: real) {
    n.Floor as real == n
  }

  predicate Equals(n: real, k: int) { n == k as real }

  /** A number is integral exactly if it is some integer. */
  lemma {:induction false} IntegralIff(n: real)
    ensures IsIntegral(n) <==> exists k: int :: Equals(n, k)
  {
    if IsIntegral(n) {
      assert Equals(n, n.Floor);
    }
  }

  /** validateValueAgainstSchema: every reported issue with the path it is reported at. */
  function Issues(v: Value, s: Schema, path: seq<Step>): set<Issue>
    decreases v
  {
    var name := TypeName(s.typ);
    var mismatch := {Issue(path, MustBe(name))};
    if v.Null? then
      if AllowsNull(s.typ) || name == "" then {} else mismatch
    else if name == "object" then
      if !v.Object? then mismatch
      else
        (if s.additional == Stated(false)
         then set k | k in v.fields && k !in s.props :: Issue(path + [Field(k)], NotAllowed)
         else {})
        + (set k | k in s.required && k !in v.fields :: Issue(path + [Field(k)], Required))
        + (set k, x | k in v.fields && k in s.props && x in Issues(v.fields[k], s.props[k], path + [Field(k)]) :: x)
    else if name == "array" then
      if !v.List? then mismatch
      else if s.items.NoItems? then {}
      else set i, x | 0 <= i < |v.elems| && x in Issues(v.elems[i], s.items.schema, path + [Index(i)]) :: x
    else if name == "string" then if v.Str? then {} else mismatch
    else if name == "number" then if v.Num? then {} else mismatch
    else if name == "integer" then if v.Num? && IsIntegral(v.n) then {} else mismatch
    else if name == "boolean" then if v.Bool? then {} else mismatch
    else {}
  }

  /** The meaning of a schema: the values it accepts. */
  predicate Accepts(s: Schema, v: Value)
    decreases v
  {
    var name := TypeName(s.typ);
    if v.Null? then AllowsNull(s.typ) || name == ""
    else if name == "object" then
      && v.Object?
      && (s.additional == Stated(false) ==> v.fields.Keys <= s.props.Keys)
      && s.required <= v.fields.Keys
      && forall k | k in v.fields && k in s.props :: Accepts(s.props[k], v.fields[k])
    else if name == "array" then
      && v.List?
      && (s.items.Items? ==> forall i | 0 <= i < |v.elems| :: Accepts(s.items.schema, v.elems[i]))
    else if name == "string" then v.Str?
    else if name == "number" then v.Num?
    else if name == "integer" then v.Num? && IsIntegral(v.n)
    else if name == "boolean" then v.Bool?
    else true
  }

  /** The validator stays silent exactly on the accepted values. */
  lemma {:induction false} SilentIffAccepted(v: Value, s: Schema, path: seq<Step>)
    ensures Issues(v, s, path) == {} <==> Accepts(s, v)
    decreases v
  {
    if v.Object? && TypeName(s.typ) == "object" {
      ObjectSilentIffAccepted(v, s, path);
    } else if v.List? && TypeName(s.typ) == "array" && s.items.Items? {
      ListSilentIffAccepted(v, s, path);
    }
  }

  lemma {:induction false} ListSilentIffAccepted(v: Value, s: Schema, path: seq<Step>)
    requires v.List? && TypeName(s.typ) == "array" && s.items.Items?
    ensures Issues(v, s, path) == {} <==> Accepts(s, v)
    decreases v, 0
  {
    var issues := Issues(v, s, path);
    forall i | 0 <= i < |v.elems|
      ensures Issues(v.elems[i], s.items.schema, path + [Index(i)]) <= issues
      ensures Issues(v.elems[i], s.items.schema, path + [Index(i)]) == {} <==> Accepts(s.items.schema, v.elems[i])
    {
      SilentIffAccepted(v.elems[i], s.items.schema, path + [Index(i)]);
    }
  }

  lemma {:induction false} ObjectSilentIffAccepted(v: Value, s: Schema, path: seq<Step>)
    requires v.Object? && TypeName(s.typ) == "object"
    ensures Issues(v, s, path) == {} <==> Accepts(s, v)
    decreases v, 0
  {
    var issues := Issues(v, s, path);
    forall k | k in v.fields && k in s.props
      ensures Issues(v.fields[k], s.props[k], path + [Field(k)]) <= issues
      ensures Issues(v.fields[k], s.props[k], path + [Field(k)]) == {} <==> Accepts(s.props[k], v.fields[k])
    {
      SilentIffAccepted(v.fields[k], s.props[k], path + [Field(k)]);
    }
    assert forall k | k in s.required && k !in v.fields :: Issue(path + [Field(k)], Required) in issues;
    if s.additional == Stated(false) {
      assert forall k | k in v.fields && k !in s.props :: Issue(path + [Field(k)], NotAllowed) in issues;
    }
  }

  /** Whether the value itself, without what it holds, is one the schema names. */
  predicate OfType(v: Value, s: Schema) {
    var name := TypeName(s.typ);
    match v
    case Null => AllowsNull(s.typ) || name == ""
    case Bool(_) => name !in {"object", "array", "string", "number", "integer"}
    case Num(n) => name !in {"object", "array", "string", "boolean"} && (name == "integer" ==> IsIntegral(n))
    case Str(_) => name !in {"object", "array", "number", "integer", "boolean"}
    case List(_) => name !in {"object", "string", "number", "integer", "boolean"}
    case Object(_) => name !in {"array", "string", "number", "integer", "boolean"}
  }

  /** What is wrong at the end of the path, followed through the value and the schema together. */
  ghost predicate ProblemAt(v: Value, s: Schema, steps: seq<Step>, p: Problem)
    decreases |steps|
  {
    if steps == [] then p == MustBe(TypeName(s.typ)) && !OfType(v, s)
    else
      match steps[0]
      case Field(k) =>
        && v.Object? && TypeName(s.typ) == "object"
        && (|| (steps == [Field(k)] && p == NotAllowed && s.additional == Stated(false)
                && k in v.fields && k !in s.props)
            || (steps == [Field(k)] && p == Required && k in s.required && k !in v.fields)
            || (k in v.fields && k in s.props && ProblemAt(v.fields[k], s.props[k], steps[1..], p)))
      case Index(i) =>
        && v.List? && TypeName(s.typ) == "array" && s.items.Items? && i < |v.elems|
        && ProblemAt(v.elems[i], s.items.schema, steps[1..], p)
  }

  lemma {:induction false} LongerPath(path: seq<Step>, step: Step, p: seq<Step>)
    ensures path + [step] <= p <==> path <= p && |path| < |p| && p[|path|] == step
    ensures path + [step] <= p ==> p[|path|..][1..] == p[|path + [step]|..] && p[|path|..][0] == step
  {
    if path <= p && |path| < |p| && p[|path|] == step {
      assert p[..|path|] == path;
      assert p[..|path| + 1] == path + [step];
    }
    if path + [step] <= p {
      assert p[..|path| + 1] == path + [step];
      assert p[..|path|] == (path + [step])[..|path|] == path;
    }
  }

  /** An issue is reported at a path exactly if something of that kind is wrong there. */
  lemma {:induction false} IssueIff(v: Value, s: Schema, path: seq<Step>, p: seq<Step>, problem: Problem)
    ensures Issue(p, problem) in Issues(v, s, path) <==> path <= p && ProblemAt(v, s, p[|path|..], problem)
    decreases v
  {
    if v.Object? && TypeName(s.typ) == "object" {
      ObjectIssueIff(v, s, path, p, problem);
    } else if v.List? && TypeName(s.typ) == "array" {
      ListIssueIff(v, s, path, p, problem);
    } else {
      assert path <= p && p[|path|..] == [] <==> p == path;
    }
  }

  lemma {:induction false} ListIssueIff(v: Value, s: Schema, path: seq<Step>, p: seq<Step>, problem: Problem)
    requires v.List? && TypeName(s.typ) == "array"
    ensures Issue(p, problem) in Issues(v, s, path) <==> path <= p && ProblemAt(v, s, p[|path|..], problem)
    decreases v, 0
  {
    if s.items.Items? {
      forall i | 0 <= i < |v.elems|
        ensures Issue(p, problem) in Issues(v.elems[i], s.items.schema, path + [Index(i)]) <==>
          && path <= p && |path| < |p| && p[|path|] == Index(i)
          && ProblemAt(v.elems[i], s.items.schema, p[|path|..][1..], problem)
      {
        LongerPath(path, Index(i), p);
        IssueIff(v.elems[i], s.items.schema, path + [Index(i)], p, problem);
      }
    }
  }

  lemma {:induction false} ObjectIssueIff(v: Value, s: Schema, path: seq<Step>, p: seq<Step>, problem: Problem)
    requires v.Object? && TypeName(s.typ) == "object"
    ensures Issue(p, problem) in Issues(v, s, path) <==> path <= p && ProblemAt(v, s, p[|path|..], problem)
    decreases v, 0
  {
    forall k | k in v.fields && k in s.props
      ensures Issue(p, problem) in Issues(v.fields[k], s.props[k], path + [Field(k)]) <==>
        && path <= p && |path| < |p| && p[|path|] == Field(k)
        && ProblemAt(v.fields[k], s.props[k], p[|path|..][1..], problem)
    {
      LongerPath(path, Field(k), p);
      IssueIff(v.fields[k], s.props[k], path + [Field(k)], p, problem);
    }
    assert forall k: string :: p == path + [Field(k)] <==> path <= p && p[|path|..] == [Field(k)];
  }

  // ----- What the two derived schemas mean

  function ValidationSchema(s: Schema): Schema { Rewrite(s, false, false) }

  function StrictSchema(s: Schema): Schema { Rewrite(s, false, true) }

  /** Removes, at every depth, the properties that are optional and hold null. */
  function DropNulls(s: Schema, v: Value): Value
    decreases v
  {
    if v.Object? && TypeName(s.typ) == "object" then
      Object(map k | k in v.fields && !(k in s.props && k !in s.required && v.fields[k].Null?) ::
               if k in s.props then DropNulls(s.props[k], v.fields[k]) else v.fields[k])
    else if v.List? && TypeName(s.typ) == "array" && s.items.Items? then
      List(seq(|v.elems|, i requires 0 <= i < |v.elems| => DropNulls(s.items.schema, v.elems[i])))
    else v
  }

  lemma {:induction false} DropNullsDecides(s: Schema, nullable: bool, v: Value)
    requires nullable ==> !v.Null?
    ensures Accepts(OnePass(s, nullable, false), v) <==> Accepts(s, DropNulls(s, v))
    decreases v
  {
    AppendNullTypeName(s.typ);
    if v.Object? && TypeName(s.typ) == "object" {
      DropNullsDecidesObject(s, nullable, v);
    } else if v.List? && TypeName(s.typ) == "array" && s.items.Items? {
      forall i | 0 <= i < |v.elems|
        ensures Accepts(OnePass(s.items.schema, false, false), v.elems[i])
           <==> Accepts(s.items.schema, DropNulls(s.items.schema, v.elems[i]))
      {
        DropNullsDecides(s.items.schema, false, v.elems[i]);
      }
      var w := DropNulls(s, v);
      assert forall i | 0 <= i < |v.elems| :: w.elems[i] == DropNulls(s.items.schema, v.elems[i]);
    }
  }

  lemma {:induction false} DropNullsDecidesObject(s: Schema, nullable: bool, v: Value)
    requires v.Object? && TypeName(s.typ) == "object"
    ensures Accepts(OnePass(s, nullable, false), v) <==> Accepts(s, DropNulls(s, v))
    decreases v, 0
  {
    AppendNullTypeName(s.typ);
    var x := OnePass(s, nullable, false);
    var w := DropNulls(s, v);
    assert TypeName(x.typ) == "object";
    forall k | k in v.fields && k in s.props
      ensures k in w.fields ==> w.fields[k] == DropNulls(s.props[k], v.fields[k])
      ensures Accepts(x.props[k], v.fields[k]) <==> k !in w.fields || Accepts(s.props[k], w.fields[k])
    {
      assert x.props[k] == OnePass(s.props[k], k !in s.required, false);
      if k in w.fields {
        DropNullsDecides(s.props[k], k !in s.required, v.fields[k]);
      }
    }
    assert s.required <= v.fields.Keys <==> s.required <= w.fields.Keys;
    assert v.fields.Keys <= s.props.Keys <==> w.fields.Keys <= s.props.Keys;
  }

  /**
    The validation schema accepts a value exactly when the original schema
    accepts it once its null optional properties are dropped.
   */
  lemma {:induction false} ValidationMeaning(s: Schema, v: Value)
    ensures Accepts(ValidationSchema(s), v) <==> Accepts(s, DropNulls(s, v))
  {
    RewriteIsOnePass(s, false, false);
    DropNullsDecides(s, false, v);
  }

  lemma {:induction false} OnePassWidens(s: Schema, nullable: bool, v: Value)
    requires Accepts(s, v)
    ensures Accepts(OnePass(s, nullable, false), v)
    decreases v
  {
    AppendNullTypeName(s.typ);
    var x := OnePass(s, nullable, false);
    if v.Object? && TypeName(s.typ) == "object" {
      forall k | k in v.fields && k in s.props ensures Accepts(x.props[k], v.fields[k]) {
        OnePassWidens(s.props[k], k !in s.required, v.fields[k]);
      }
    } else if v.List? && TypeName(s.typ) == "array" && s.items.Items? {
      forall i | 0 <= i < |v.elems| ensures Accepts(x.items.schema, v.elems[i]) {
        OnePassWidens(s.items.schema, false, v.elems[i]);
      }
    }
  }

  /** Nothing the original schema accepts is lost. */
  lemma {:induction false} ValidationAcceptsOriginal(s: Schema, v: Value)
    requires Accepts(s, v)
    ensures Accepts(ValidationSchema(s), v)
  {
    RewriteIsOnePass(s, false, false);
    OnePassWidens(s, false, v);
  }

  /** Every declared property is present, at every depth the schema reaches. */
  predicate Complete(s: Schema, v: Value)
    decreases v
  {
    if v.Object? && TypeName(s.typ) == "object" then
      && s.props.Keys <= v.fields.Keys
      && forall k | k in v.fields && k in s.props :: Complete(s.props[k], v.fields[k])
    else if v.List? && TypeName(s.typ) == "array" && s.items.Items? then
      forall i | 0 <= i < |v.elems| :: Complete(s.items.schema, v.elems[i])
    else true
  }

  /** Every required name is declared, at every depth a value can reach. */
  predicate Declared(s: Schema) {
    if TypeName(s.typ) == "object" then
      s.required <= s.props.Keys && forall k | k in s.props :: Declared(s.props[k])
    else if TypeName(s.typ) == "array" && s.items.Items? then Declared(s.items.schema)
    else true
  }

  lemma {:induction false} StrictDecides(s: Schema, nullable: bool, v: Value)
    requires Declared(s)
    ensures Accepts(OnePass(s, nullable, true), v)
       <==> Accepts(OnePass(s, nullable, false), v) && Complete(s, v)
    decreases v
  {
    AppendNullTypeName(s.typ);
    if v.Object? && TypeName(s.typ) == "object" {
      StrictDecidesObject(s, nullable, v);
    } else if v.List? && TypeName(s.typ) == "array" && s.items.Items? {
      var strict, loose := OnePass(s, nullable, true), OnePass(s, nullable, false);
      forall i | 0 <= i < |v.elems|
        ensures Accepts(strict.items.schema, v.elems[i])
           <==> Accepts(loose.items.schema, v.elems[i]) && Complete(s.items.schema, v.elems[i])
      {
        StrictDecides(s.items.schema, false, v.elems[i]);
      }
    }
  }

  lemma {:induction false} StrictDecidesObject(s: Schema, nullable: bool, v: Value)
    requires Declared(s) && v.Object? && TypeName(s.typ) == "object"
    ensures Accepts(OnePass(s, nullable, true), v)
       <==> Accepts(OnePass(s, nullable, false), v) && Complete(s, v)
    decreases v, 0
  {
    AppendNullTypeName(s.typ);
    var strict, loose := OnePass(s, nullable, true), OnePass(s, nullable, false);
    forall k | k in v.fields && k in s.props
      ensures Accepts(strict.props[k], v.fields[k])
         <==> Accepts(loose.props[k], v.fields[k]) && Complete(s.props[k], v.fields[k])
    {
      StrictDecides(s.props[k], k !in s.required, v.fields[k]);
    }
  }

  /** The schema without the required names that it does not declare, at every depth a value can reach. */
  function Trimmed(s: Schema): Schema {
    var isObject := TypeName(s.typ) == "object";
    Schema(
      s.typ,
      map k | k in s.props :: Trimmed(s.props[k]),
      if isObject then s.required * s.props.Keys else s.required,
      if s.items.Items? then Items(Trimmed(s.items.schema)) else NoItems,
      s.additional)
  }

  lemma {:induction false} TrimmedDeclared(s: Schema)
    ensures Declared(Trimmed(s))
  {
    forall k | k in s.props ensures Declared(Trimmed(s).props[k]) {
      TrimmedDeclared(s.props[k]);
    }
    if s.items.Items? {
      TrimmedDeclared(s.items.schema);
    }
  }

  /** The strict rewrite forgets the undeclared names anyway. */
  lemma {:induction false} TrimmedStrict(s: Schema, nullable: bool)
    ensures OnePass(Trimmed(s), nullable, true) == OnePass(s, nullable, true)
  {
    var x, y := OnePass(Trimmed(s), nullable, true), OnePass(s, nullable, true);
    forall k | k in s.props ensures x.props[k] == y.props[k] {
      TrimmedStrict(s.props[k], TypeName(s.typ) == "object" && k !in s.required);
    }
    SameProps(x, y);
    if s.items.Items? {
      TrimmedStrict(s.items.schema, false);
    }
  }

  lemma {:induction false} TrimmedComplete(s: Schema, v: Value)
    ensures Complete(Trimmed(s), v) <==> Complete(s, v)
    decreases v
  {
    if v.Object? && TypeName(s.typ) == "object" {
      forall k | k in v.fields && k in s.props
        ensures Complete(Trimmed(s).props[k], v.fields[k]) <==> Complete(s.props[k], v.fields[k])
      {
        TrimmedComplete(s.props[k], v.fields[k]);
      }
    } else if v.List? && TypeName(s.typ) == "array" && s.items.Items? {
      forall i | 0 <= i < |v.elems|
        ensures Complete(Trimmed(s).items.schema, v.elems[i]) <==> Complete(s.items.schema, v.elems[i])
      {
        TrimmedComplete(s.items.schema, v.elems[i]);
      }
    }
  }

  /**
    For every schema: the strict schema accepts what the validation schema
    accepts once undeclared names are no longer required, provided that every
    declared property is present.
   */
  lemma {:induction false} StrictMeaning(s: Schema, v: Value)
    ensures Accepts(StrictSchema(s), v) <==> Accepts(ValidationSchema(Trimmed(s)), v) && Complete(s, v)
    ensures Declared(s) ==> (Accepts(StrictSchema(s), v) <==> Accepts(ValidationSchema(s), v) && Complete(s, v))
  {
    RewriteIsOnePass(s, false, true);
    RewriteIsOnePass(s, false, false);
    RewriteIsOnePass(Trimmed(s), false, false);
    TrimmedDeclared(s);
    TrimmedStrict(s, false);
    TrimmedComplete(s, v);
    StrictDecides(Trimmed(s), false, v);
    if Declared(s) {
      StrictDecides(s, false, v);
    }
  }

  /** A value built from a schema: all declared properties, one element per array. */
  function Sample(s: Schema): Value {
    var name := TypeName(s.typ);
    if name == "object" then Object(map k | k in s.props :: Sample(s.props[k]))
    else if name == "array" then if s.items.Items? then List([Sample(s.items.schema)]) else List([])
    else if name == "string" then Str("")
    else if name == "number" || name == "integer" then Num(0.0)
    else Bool(true)
  }

  lemma {:induction false} SampleIsStrict(s: Schema, nullable: bool)
    ensures Accepts(OnePass(s, nullable, true), Sample(s))
    ensures Accepts(OnePass(s, nullable, false), Sample(s)) ==> Declared(s)
  {
    AppendNullTypeName(s.typ);
    var strict, loose, v := OnePass(s, nullable, true), OnePass(s, nullable, false), Sample(s);
    if TypeName(s.typ) == "object" {
      forall k | k in s.props
        ensures Accepts(strict.props[k], v.fields[k])
        ensures Accepts(loose.props[k], v.fields[k]) ==> Declared(s.props[k])
      {
        SampleIsStrict(s.props[k], k !in s.required);
      }
    } else if TypeName(s.typ) == "array" && s.items.Items? {
      SampleIsStrict(s.items.schema, false);
      assert Accepts(loose, v) ==> Accepts(loose.items.schema, v.elems[0]);
    }
  }

  /**
    Everything a strict provider may return passes validation if and only if
    every required name is a declared property: the strict rewrite replaces
    "required" by the declared names and forgets the others.
   */
  lemma {:induction false} StrictImpliesValidationIff(s: Schema)
    ensures (forall v :: Accepts(StrictSchema(s), v) ==> Accepts(ValidationSchema(s), v)) <==> Declared(s)
  {
    if Declared(s) {
      forall v | Accepts(StrictSchema(s), v) ensures Accepts(ValidationSchema(s), v) {
        StrictMeaning(s, v);
      }
    } else {
      RewriteIsOnePass(s, false, true);
      RewriteIsOnePass(s, false, false);
      SampleIsStrict(s, false);
      assert Accepts(StrictSchema(s), Sample(s)) && !Accepts(ValidationSchema(s), Sample(s));
    }
  }
}
