/**
 * The translation of request schemas into JSON Schema, and what it means.
 *
 * Two meanings face each other: `Accepts`, what the request parser takes (with unknown keys rejected), and
 * `Valid`, what the published document says (the validation keywords of JSON Schema 2020-12).
 */
module ZodSchema {
  import opened Prelude

  datatype Json =
    | JNull
    | JBool(b: bool)
    | JNum(n: real)
    | JStr(s: string)
    | JArr(items: seq<Json>)
    | JObj(fields: map<string, Json>)

  predicate IsInteger(n: real) {
    n.Floor as real == n
  }

  // ----- Source schemas -----

  datatype StringCheck = MinLength(n: nat) | MaxLength(n: nat) | ExactLength(n: nat)

  datatype NumberCheck = Int | Min(value: real, inclusive: bool) | Max(value: real, inclusive: bool)

  datatype Schema =
    | ZString(stringChecks: seq<StringCheck>)
    | ZNumber(numberChecks: seq<NumberCheck>)
    | ZBoolean
    | ZNull
    | ZAny
    | ZLiteral(value: Json)
    | ZEnum(values: seq<string>)
    | ZArray(elem: Schema, minItems: Option<nat>, maxItems: Option<nat>)
    | ZObject(shape: seq<Prop>)
    | ZRecord(each: Schema)
    | ZUnion(options: seq<Schema>)
    | ZTagged(tag: string, cases: seq<Schema>)
    | ZOptional(inner: Schema)
    | ZNullable(inner: Schema)
    | ZDefault(inner: Schema, default: Json)

  datatype Prop = Prop(key: string, schema: Schema)

  ghost predicate StringPasses(check: StringCheck, s: string) {
    match check
    case MinLength(n) => |s| >= n
    case MaxLength(n) => |s| <= n
    case ExactLength(n) => |s| == n
  }

  ghost predicate NumberPasses(check: NumberCheck, n: real) {
    match check
    case Int => IsInteger(n)
    case Min(value, inclusive) => n > value || (inclusive && n == value)
    case Max(value, inclusive) => n < value || (inclusive && n == value)
  }

  ghost predicate CountOk(n: nat, min: Option<nat>, max: Option<nat>) {
    (min.Some? ==> n >= min.value) && (max.Some? ==> n <= max.value)
  }

  /** The literal an object schema gives to a key. */
  function TagOf(s: Schema, tag: string): Option<Json> {
    if s.ZObject? then TagIn(s.shape, tag) else None
  }

  function TagIn(shape: seq<Prop>, tag: string): Option<Json> {
    if shape == [] then None
    else if shape[0].key == tag then if shape[0].schema.ZLiteral? then Some(shape[0].schema.value) else None
    else TagIn(shape[1..], tag)
  }

  /** What the parser takes. */
  ghost predicate Accepts(s: Schema, v: Json)
    decreases s
  {
    match s
    case ZString(checks) => v.JStr? && forall c :: c in checks ==> StringPasses(c, v.s)
    case ZNumber(checks) => v.JNum? && forall c :: c in checks ==> NumberPasses(c, v.n)
    case ZBoolean => v.JBool?
    case ZNull => v.JNull?
    case ZAny => true
    case ZLiteral(value) => v == value
    case ZEnum(values) => v.JStr? && v.s in values
    case ZArray(elem, min, max) => v.JArr? && CountOk(|v.items|, min, max) && forall x :: x in v.items ==> Accepts(elem, x)
    case ZObject(shape) =>
      && v.JObj?
      && (forall k :: k in v.fields ==> exists p :: p in shape && p.key == k)
      && (forall p :: p in shape ==>
            if p.key in v.fields then Accepts(p.schema, v.fields[p.key]) else AcceptsAbsent(p.schema))
    case ZRecord(each) => v.JObj? && forall k :: k in v.fields ==> Accepts(each, v.fields[k])
    case ZUnion(options) => exists o :: o in options && Accepts(o, v)
    case ZTagged(tag, cases) =>
      v.JObj? && tag in v.fields
      && exists o :: o in cases && TagOf(o, tag) == Some(v.fields[tag]) && Accepts(o, v)
    case ZOptional(inner) => Accepts(inner, v)
    case ZNullable(inner) => v.JNull? || Accepts(inner, v)
    case ZDefault(inner, _) => Accepts(inner, v)
  }

  /** Whether an object key may be left out. */
  ghost predicate AcceptsAbsent(s: Schema)
    decreases s
  {
    match s
    case ZAny => true
    case ZOptional(_) => true
    case ZDefault(inner, default) => Accepts(inner, default)
    case ZNullable(inner) => AcceptsAbsent(inner)
    case ZUnion(options) => exists o :: o in options && AcceptsAbsent(o)
    case _ => false
  }

  // ----- Published schemas -----

  datatype TypeField = NoType | OneType(t: string) | ManyTypes(ts: seq<string>)
  datatype ItemsField = NoItems | Items(schema: JsonSchema)
  datatype MoreField = AnyMore | NoMore | EachMore(schema: JsonSchema)
  datatype ChoiceField = NoChoice | AnyOf(options: seq<JsonSchema>) | OneOf(options: seq<JsonSchema>)
  datatype JsonProp = JsonProp(key: string, schema: JsonSchema)

  datatype JsonSchema = JsonSchema(
    ty: TypeField, enumOf: Option<seq<string>>, constOf: Option<Json>, defaultOf: Option<Json>,
    items: ItemsField, properties: seq<JsonProp>, required: seq<string>, more: MoreField, choice: ChoiceField,
    minimum: Option<real>, maximum: Option<real>, minLength: Option<nat>, maxLength: Option<nat>,
    minItems: Option<nat>, maxItems: Option<nat>)

  const EMPTY := JsonSchema(NoType, None, None, None, NoItems, [], [], AnyMore, NoChoice,
                            None, None, None, None, None, None)

  function Typed(t: string): JsonSchema {
    EMPTY.(ty := OneType(t))
  }

  ghost predicate HasType(t: string, v: Json) {
    || (t == "null" && v.JNull?) || (t == "boolean" && v.JBool?) || (t == "string" && v.JStr?)
    || (t == "number" && v.JNum?) || (t == "integer" && v.JNum? && IsInteger(v.n))
    || (t == "array" && v.JArr?) || (t == "object" && v.JObj?)
  }

  ghost predicate TypeOk(ty: TypeField, v: Json) {
    match ty
    case NoType => true
    case OneType(t) => HasType(t, v)
    case ManyTypes(ts) => exists t :: t in ts && HasType(t, v)
  }

  /** The keywords that do not look inside. */
  ghost predicate FlatOk(j: JsonSchema, v: Json) {
    && TypeOk(j.ty, v)
    && (j.enumOf.Some? ==> v.JStr? && v.s in j.enumOf.value)
    && (j.constOf.Some? ==> v == j.constOf.value)
    && (v.JStr? ==> CountOk(|v.s|, j.minLength, j.maxLength))
    && (v.JNum? ==> (j.minimum.Some? ==> v.n >= j.minimum.value) && (j.maximum.Some? ==> v.n <= j.maximum.value))
    && (v.JArr? ==> CountOk(|v.items|, j.minItems, j.maxItems))
    && (v.JObj? ==> forall k :: k in j.required ==> k in v.fields)
  }

  /** What the published document says. */
  ghost predicate Valid(j: JsonSchema, v: Json)
    decreases j
  {
    && FlatOk(j, v)
    && (v.JArr? ==>
          match j.items
          case NoItems => true
          case Items(schema) => forall x :: x in v.items ==> Valid(schema, x))
    && (v.JObj? ==>
          && (forall p :: p in j.properties && p.key in v.fields ==> Valid(p.schema, v.fields[p.key]))
          && match j.more
             case AnyMore => true
             case NoMore => forall k :: k in v.fields ==> exists p :: p in j.properties && p.key == k
             case EachMore(schema) =>
               forall k :: k in v.fields && (forall p :: p in j.properties ==> p.key != k) ==> Valid(schema, v.fields[k]))
    && match j.choice
       case NoChoice => true
       case AnyOf(options) => exists o :: o in options && Valid(o, v)
       case OneOf(options) =>
         exists i :: 0 <= i < |options| && Valid(options[i], v)
                  && forall k :: 0 <= k < |options| && Valid(options[k], v) ==> k == i
  }

  // ----- The translation -----

  function WithStringCheck(out: JsonSchema, check: StringCheck): JsonSchema {
    match check
    case MinLength(n) => out.(minLength := Some(n))
    case MaxLength(n) => out.(maxLength := Some(n))
    case ExactLength(n) => out.(minLength := Some(n), maxLength := Some(n))
  }

  function WithStringChecks(out: JsonSchema, checks: seq<StringCheck>): JsonSchema {
    if checks == [] then out
    else WithStringCheck(WithStringChecks(out, checks[..|checks| - 1]), checks[|checks| - 1])
  }

  method ApplyStringChecks(start: JsonSchema, checks: seq<StringCheck>) returns (out: JsonSchema)
    ensures out == WithStringChecks(start, checks)
  {
    out := start;
    for i := 0 to |checks|
      invariant out == WithStringChecks(start, checks[..i])
    {
      assert checks[..i + 1][..i] == checks[..i];
      match checks[i] {
        case MinLength(n) => out := out.(minLength := Some(n));
        case MaxLength(n) => out := out.(maxLength := Some(n));
        case ExactLength(n) => out := out.(minLength := Some(n), maxLength := Some(n));
      }
    }
    assert checks[..|checks|] == checks;
  }

  function WithNumberCheck(out: JsonSchema, check: NumberCheck): JsonSchema {
    match check
    case Int => out.(ty := OneType("integer"))
    case Min(value, _) => out.(minimum := Some(value))
    case Max(value, _) => out.(maximum := Some(value))
  }

  function WithNumberChecks(out: JsonSchema, checks: seq<NumberCheck>): JsonSchema {
    if checks == [] then out
    else WithNumberCheck(WithNumberChecks(out, checks[..|checks| - 1]), checks[|checks| - 1])
  }

  method ApplyNumberChecks(start: JsonSchema, checks: seq<NumberCheck>) returns (out: JsonSchema)
    ensures out == WithNumberChecks(start, checks)
  {
    out := start;
    for i := 0 to |checks|
      invariant out == WithNumberChecks(start, checks[..i])
    {
      assert checks[..i + 1][..i] == checks[..i];
      match checks[i] {
        case Int => out := out.(ty := OneType("integer"));
        case Min(value, _) => out := out.(minimum := Some(value));
        case Max(value, _) => out := out.(maximum := Some(value));
      }
    }
    assert checks[..|checks|] == checks;
  }

  /** The caller may leave the key out, as far as the published document is concerned. */
  predicate IsOptionalish(s: Schema) {
    s.ZOptional? || s.ZDefault?
  }

  function ToJsonSchema(s: Schema): JsonSchema
    decreases s
  {
    match s
    case ZString(checks) => WithStringChecks(Typed("string"), checks)
    case ZNumber(checks) => WithNumberChecks(Typed("number"), checks)
    case ZBoolean => Typed("boolean")
    case ZNull => Typed("null")
    case ZAny => EMPTY
    case ZLiteral(value) => EMPTY.(constOf := Some(value))
    case ZEnum(values) => Typed("string").(enumOf := Some(values))
    case ZArray(elem, min, max) => Typed("array").(items := Items(ToJsonSchema(elem)), minItems := min, maxItems := max)
    case ZObject(shape) => Typed("object").(properties := Properties(shape), required := Required(shape), more := NoMore)
    case ZRecord(each) => Typed("object").(more := EachMore(ToJsonSchema(each)))
    case ZUnion(options) => EMPTY.(choice := AnyOf(ToJsonSchemas(options)))
    case ZTagged(_, cases) => EMPTY.(choice := OneOf(ToJsonSchemas(cases)))
    case ZOptional(inner) => ToJsonSchema(inner)
    case ZNullable(inner) => OrNull(ToJsonSchema(inner))
    case ZDefault(inner, default) => ToJsonSchema(inner).(defaultOf := Some(default))
  }

  /** A type union where there is a type, and a choice where there is none. */
  function OrNull(j: JsonSchema): JsonSchema {
    match j.ty
    case OneType(t) => j.(ty := ManyTypes([t, "null"]))
    case ManyTypes(ts) => j.(ty := ManyTypes(ts + ["null"]))
    case NoType => EMPTY.(choice := AnyOf([j, Typed("null")]))
  }

  function ToJsonSchemas(options: seq<Schema>): seq<JsonSchema>
    decreases options
  {
    if options == [] then [] else [ToJsonSchema(options[0])] + ToJsonSchemas(options[1..])
  }

  function Properties(shape: seq<Prop>): seq<JsonProp>
    decreases shape
  {
    if shape == [] then [] else [JsonProp(shape[0].key, ToJsonSchema(shape[0].schema))] + Properties(shape[1..])
  }

  function Required(shape: seq<Prop>): seq<string> {
    if shape == [] then []
    else (if IsOptionalish(shape[0].schema) then [] else [shape[0].key]) + Required(shape[1..])
  }

  /** The object case: one pass fills both lists. */
  method ConvertShape(shape: seq<Prop>) returns (properties: seq<JsonProp>, required: seq<string>)
    ensures properties == Properties(shape) && required == Required(shape)
  {
    properties, required := [], [];
    for i := 0 to |shape|
      invariant properties + Properties(shape[i..]) == Properties(shape)
      invariant required + Required(shape[i..]) == Required(shape)
    {
      assert shape[i..][1..] == shape[i + 1..];
      var p := JsonProp(shape[i].key, ToJsonSchema(shape[i].schema));
      Regroup(properties, [p], Properties(shape[i + 1..]));
      Regroup(required, if IsOptionalish(shape[i].schema) then [] else [shape[i].key], Required(shape[i + 1..]));
      properties := properties + [p];
      if !IsOptionalish(shape[i].schema) { required := required + [shape[i].key]; }
    }
  }

  // ----- When the two meanings agree -----

  function Lower(check: StringCheck): Option<nat> {
    match check
    case MinLength(n) => Some(n)
    case MaxLength(_) => None
    case ExactLength(n) => Some(n)
  }

  function Upper(check: StringCheck): Option<nat> {
    match check
    case MinLength(_) => None
    case MaxLength(n) => Some(n)
    case ExactLength(n) => Some(n)
  }

  function AtLeast(bound: Option<nat>): nat {
    if bound.Some? then bound.value else 0
  }

  function PublishedString(checks: seq<StringCheck>): JsonSchema {
    WithStringChecks(Typed("string"), checks)
  }

  function PublishedNumber(checks: seq<NumberCheck>): JsonSchema {
    WithNumberChecks(Typed("number"), checks)
  }

  /** The bounds written last are the tightest ones. */
  ghost predicate LastIsTightest(checks: seq<StringCheck>) {
    var out := PublishedString(checks);
    && (forall c :: c in checks && Lower(c).Some? ==> Lower(c).value <= AtLeast(out.minLength))
    && (forall c :: c in checks && Upper(c).Some? ==> out.maxLength.Some? && out.maxLength.value <= Upper(c).value)
  }

  function Ceil(x: real): real { -((-x).Floor as real) }

  /** The least number the published bounds and type admit, if there is a least bound. */
  function Lowest(checks: seq<NumberCheck>): Option<real> {
    var min := PublishedNumber(checks).minimum;
    if min.Some? && Int in checks then Some(Ceil(min.value)) else min
  }

  function Highest(checks: seq<NumberCheck>): Option<real> {
    var max := PublishedNumber(checks).maximum;
    if max.Some? && Int in checks then Some(max.value.Floor as real) else max
  }

  /** Every bound admits the end of the published range on its side. */
  ghost predicate EndsPass(checks: seq<NumberCheck>) {
    && (forall c :: c in checks && c.Min? ==> Lowest(checks).Some? && NumberPasses(c, Lowest(checks).value))
    && (forall c :: c in checks && c.Max? ==> Highest(checks).Some? && NumberPasses(c, Highest(checks).value))
  }

  predicate NoNumberFits(checks: seq<NumberCheck>) {
    Lowest(checks).Some? && Highest(checks).Some? && Lowest(checks).value > Highest(checks).value
  }

  predicate NoStringFits(checks: seq<StringCheck>) {
    var out := PublishedString(checks);
    out.maxLength.Some? && out.maxLength.value < AtLeast(out.minLength)
  }

  /** Nothing with an enumeration is under a nullable. */
  predicate NullFits(s: Schema) {
    match s
    case ZEnum(_) => false
    case ZOptional(inner) => NullFits(inner)
    case ZDefault(inner, _) => NullFits(inner)
    case ZNullable(inner) => NullFits(inner)
    case _ => true
  }

  /** A key may be left out exactly when its schema is optional or has a default at the top. */
  ghost predicate MissingKeysFit(shape: seq<Prop>) {
    forall p :: p in shape ==> (AcceptsAbsent(p.schema) <==> IsOptionalish(p.schema))
  }

  /** The condition under which a schema is published faithfully; it is about the schema alone. */
  ghost predicate Faithful(s: Schema)
    decreases s
  {
    match s
    case ZString(checks) => LastIsTightest(checks) || NoStringFits(checks)
    case ZNumber(checks) => EndsPass(checks) || NoNumberFits(checks)
    case ZArray(elem, _, _) => Faithful(elem)
    case ZObject(shape) => MissingKeysFit(shape) && forall p :: p in shape ==> Faithful(p.schema)
    case ZRecord(each) => Faithful(each)
    case ZUnion(options) => forall o :: o in options ==> Faithful(o)
    case ZTagged(tag, cases) =>
      && (forall o :: o in cases ==> Faithful(o) && o.ZObject? && TagOf(o, tag).Some?)
      && (forall i, k :: 0 <= i < k < |cases| ==> TagOf(cases[i], tag) != TagOf(cases[k], tag))
    case ZOptional(inner) => Faithful(inner)
    case ZNullable(inner) => Faithful(inner) && NullFits(inner)
    case ZDefault(inner, _) => Faithful(inner)
    case _ => true
  }

  /** String checks write the two length bounds and nothing else, each with the bound of some check. */
  lemma {:induction false} StringChecksWrite(out: JsonSchema, checks: seq<StringCheck>)
    ensures var r := WithStringChecks(out, checks);
            && r == out.(minLength := r.minLength, maxLength := r.maxLength)
            && (r.minLength == out.minLength || exists c :: c in checks && Lower(c).Some? && r.minLength == Lower(c))
            && (r.maxLength == out.maxLength || exists c :: c in checks && Upper(c).Some? && r.maxLength == Upper(c))
  {
    if checks != [] {
      var init, last := checks[..|checks| - 1], checks[|checks| - 1];
      StringChecksWrite(out, init);
      assert checks == init + [last];
      assert last in checks;
    }
  }

  lemma {:induction false} NumberChecksWrite(out: JsonSchema, checks: seq<NumberCheck>)
    ensures var r := WithNumberChecks(out, checks);
            && r == out.(ty := r.ty, minimum := r.minimum, maximum := r.maximum)
            && r.ty == (if Int in checks then OneType("integer") else out.ty)
            && (r.minimum == out.minimum || exists c :: c in checks && c.Min? && r.minimum == Some(c.value))
            && (r.maximum == out.maximum || exists c :: c in checks && c.Max? && r.maximum == Some(c.value))
  {
    if checks != [] {
      var init, last := checks[..|checks| - 1], checks[|checks| - 1];
      NumberChecksWrite(out, init);
      assert checks == init + [last];
      assert last in checks;
    }
  }

  /** The published document and the parser agree on one value. */
  ghost predicate Agree(s: Schema, v: Json) {
    Valid(ToJsonSchema(s), v) <==> Accepts(s, v)
  }

  lemma StringMeaning(checks: seq<StringCheck>, v: Json)
    ensures Valid(PublishedString(checks), v)
       <==> v.JStr? && CountOk(|v.s|, PublishedString(checks).minLength, PublishedString(checks).maxLength)
  {
    StringChecksWrite(Typed("string"), checks);
  }

  lemma StringAgrees(checks: seq<StringCheck>, v: Json)
    requires LastIsTightest(checks)
    ensures Agree(ZString(checks), v)
  {
    StringMeaning(checks, v);
    StringChecksWrite(Typed("string"), checks);
    if v.JStr? {
      forall c | c in checks
        ensures CountOk(|v.s|, PublishedString(checks).minLength, PublishedString(checks).maxLength) ==> StringPasses(c, v.s)
      {}
    }
  }

  /** For string rules the condition is exact: the last bounds are the tightest, or nothing fits between them. */
  lemma StringAgreesExactly(checks: seq<StringCheck>)
    ensures (forall v :: Agree(ZString(checks), v))
       <==> LastIsTightest(checks) || NoStringFits(checks)
  {
    var out := PublishedString(checks);
    StringChecksWrite(Typed("string"), checks);
    if LastIsTightest(checks) {
      forall v ensures Agree(ZString(checks), v) { StringAgrees(checks, v); }
    } else if NoStringFits(checks) {
      forall v ensures Agree(ZString(checks), v) {
        StringMeaning(checks, v);
      }
    } else if c :| c in checks && Lower(c).Some? && Lower(c).value > AtLeast(out.minLength) {
      StringDisagrees(checks, AtLeast(out.minLength), c);
    } else {
      var d :| d in checks && Upper(d).Some? && (out.maxLength == None || out.maxLength.value > Upper(d).value);
      StringDisagrees(checks, if out.maxLength.Some? then out.maxLength.value
                              else AtLeast(out.minLength) + Upper(d).value + 1, d);
    }
  }

  lemma StringDisagrees(checks: seq<StringCheck>, n: nat, c: StringCheck)
    requires CountOk(n, PublishedString(checks).minLength, PublishedString(checks).maxLength)
    requires c in checks && ((Lower(c).Some? && n < Lower(c).value) || (Upper(c).Some? && n > Upper(c).value))
    ensures exists v :: !Agree(ZString(checks), v)
  {
    var v := JStr(seq(n, _ => 'x'));
    StringMeaning(checks, v);
    assert !StringPasses(c, v.s);
    assert !Agree(ZString(checks), v);
  }

  /** What the published form of a checked number takes. */
  predicate InRange(checks: seq<NumberCheck>, n: real) {
    && (Int in checks ==> IsInteger(n))
    && (Lowest(checks).Some? ==> n >= Lowest(checks).value)
    && (Highest(checks).Some? ==> n <= Highest(checks).value)
  }

  lemma FloorIsGreatest(x: real, k: int)
    ensures k as real <= x <==> k <= x.Floor
  {
    if k <= x.Floor { assert k as real <= x.Floor as real; }
  }

  lemma IntegerIsItself(k: int)
    ensures IsInteger(k as real) && (k as real).Floor == k
  {}

  lemma WholeEnd(x: real, n: real)
    requires IsInteger(n)
    ensures (n >= x <==> n >= Ceil(x)) && (n <= x <==> n <= x.Floor as real)
  {
    var k := n.Floor;
    FloorIsGreatest(x, k);
    FloorIsGreatest(-x, -k);
    assert -n == (-k) as real;
  }

  lemma WholeEnds(x: real)
    ensures IsInteger(Ceil(x)) && IsInteger(x.Floor as real) && x.Floor as real <= x <= Ceil(x)
    ensures forall n: real :: IsInteger(n) ==> (n >= x <==> n >= Ceil(x)) && (n <= x <==> n <= x.Floor as real)
  {
    IntegerIsItself(-((-x).Floor));
    IntegerIsItself(x.Floor);
    forall n: real | IsInteger(n) ensures (n >= x <==> n >= Ceil(x)) && (n <= x <==> n <= x.Floor as real) {
      WholeEnd(x, n);
    }
  }

  lemma NumberMeaning(checks: seq<NumberCheck>, v: Json)
    ensures Valid(PublishedNumber(checks), v) <==> v.JNum? && InRange(checks, v.n)
  {
    var out := PublishedNumber(checks);
    NumberChecksWrite(Typed("number"), checks);
    if out.minimum.Some? { WholeEnds(out.minimum.value); }
    if out.maximum.Some? { WholeEnds(out.maximum.value); }
  }

  /** The written bounds are bounds of some check, so the parser takes nothing outside them. */
  lemma ParserStaysInRange(checks: seq<NumberCheck>, n: real)
    requires forall c :: c in checks ==> NumberPasses(c, n)
    ensures InRange(checks, n)
  {
    var out := PublishedNumber(checks);
    NumberChecksWrite(Typed("number"), checks);
    if Int in checks { assert NumberPasses(Int, n); }
    if out.minimum.Some? { WholeEnds(out.minimum.value); }
    if out.maximum.Some? { WholeEnds(out.maximum.value); }
  }

  lemma NumberAgrees(checks: seq<NumberCheck>, v: Json)
    requires EndsPass(checks) || NoNumberFits(checks)
    ensures Agree(ZNumber(checks), v)
  {
    NumberMeaning(checks, v);
    if v.JNum? {
      if InRange(checks, v.n) {
        forall c | c in checks ensures NumberPasses(c, v.n) {}
      }
      if Accepts(ZNumber(checks), v) { ParserStaysInRange(checks, v.n); }
    }
  }

  lemma NumberDisagrees(checks: seq<NumberCheck>, n: real, c: NumberCheck)
    requires InRange(checks, n) && c in checks && !NumberPasses(c, n)
    ensures !Agree(ZNumber(checks), JNum(n))
  {
    NumberMeaning(checks, JNum(n));
  }

  lemma EndsAreIntegers(checks: seq<NumberCheck>)
    ensures Int in checks && Lowest(checks).Some? ==> IsInteger(Lowest(checks).value)
    ensures Int in checks && Highest(checks).Some? ==> IsInteger(Highest(checks).value)
  {
    var out := PublishedNumber(checks);
    if out.minimum.Some? { WholeEnds(out.minimum.value); }
    if out.maximum.Some? { WholeEnds(out.maximum.value); }
  }

  /** A bound of either kind leaves a published one. */
  lemma {:induction false} BoundsAreWritten(out: JsonSchema, checks: seq<NumberCheck>)
    ensures (exists c :: c in checks && c.Min?) ==> WithNumberChecks(out, checks).minimum.Some?
    ensures (exists c :: c in checks && c.Max?) ==> WithNumberChecks(out, checks).maximum.Some?
    ensures out.minimum.Some? ==> WithNumberChecks(out, checks).minimum.Some?
    ensures out.maximum.Some? ==> WithNumberChecks(out, checks).maximum.Some?
  {
    if checks != [] {
      var init, last := checks[..|checks| - 1], checks[|checks| - 1];
      assert checks == init + [last];
      BoundsAreWritten(out, init);
    }
  }

  /** For number rules too the condition is exact: the ends of the published range pass every bound, or it is empty. */
  lemma NumberAgreesExactly(checks: seq<NumberCheck>)
    ensures (forall v :: Agree(ZNumber(checks), v)) <==> EndsPass(checks) || NoNumberFits(checks)
  {
    EndsAreIntegers(checks);
    BoundsAreWritten(Typed("number"), checks);
    if EndsPass(checks) || NoNumberFits(checks) {
      forall v ensures Agree(ZNumber(checks), v) { NumberAgrees(checks, v); }
    } else if c :| c in checks && c.Min? && !NumberPasses(c, Lowest(checks).value) {
      NumberDisagrees(checks, Lowest(checks).value, c);
    } else {
      var d :| d in checks && d.Max? && !NumberPasses(d, Highest(checks).value);
      NumberDisagrees(checks, Highest(checks).value, d);
    }
  }

  /** At most one bound of each kind, and inclusive: then the ends pass. */
  lemma SingleInclusiveBoundsPass(checks: seq<NumberCheck>)
    requires forall c :: c in checks && !c.Int? ==> c.inclusive
    requires forall c, d :: c in checks && d in checks && c.Min? && d.Min? ==> c == d
    requires forall c, d :: c in checks && d in checks && c.Max? && d.Max? ==> c == d
    ensures EndsPass(checks)
  {
    var out := PublishedNumber(checks);
    NumberChecksWrite(Typed("number"), checks);
    BoundsAreWritten(Typed("number"), checks);
    if out.minimum.Some? { WholeEnds(out.minimum.value); }
    if out.maximum.Some? { WholeEnds(out.maximum.value); }
  }

  /** An exclusive bound is published as an inclusive one. */
  lemma ExclusiveBoundIsLost(bound: real)
    ensures !Agree(ZNumber([Min(bound, false)]), JNum(bound))
  {
    var checks := [Min(bound, false)];
    assert checks[..0] == [] && checks[0] in checks;
    assert WithNumberChecks(Typed("number"), checks) == Typed("number").(minimum := Some(bound));
    assert !NumberPasses(checks[0], bound);
  }

  lemma {:induction false} PropertiesAt(shape: seq<Prop>)
    ensures |Properties(shape)| == |shape|
    ensures forall i :: 0 <= i < |shape| ==> Properties(shape)[i] == JsonProp(shape[i].key, ToJsonSchema(shape[i].schema))
  {
    if shape != [] { PropertiesAt(shape[1..]); }
  }

  lemma {:induction false} OptionsAt(options: seq<Schema>)
    ensures |ToJsonSchemas(options)| == |options|
    ensures forall i :: 0 <= i < |options| ==> ToJsonSchemas(options)[i] == ToJsonSchema(options[i])
  {
    if options != [] { OptionsAt(options[1..]); }
  }

  lemma {:induction false} RequiredIn(shape: seq<Prop>, k: string)
    ensures k in Required(shape) <==> exists p :: p in shape && p.key == k && !IsOptionalish(p.schema)
  {
    if shape != [] {
      RequiredIn(shape[1..], k);
      assert shape == [shape[0]] + shape[1..];
    }
  }

  /** What is required is exactly what is neither optional nor defaulted at the top. */
  lemma RequiredAre(shape: seq<Prop>, k: string)
    ensures k in Required(shape) <==> exists p :: p in shape && p.key == k && !p.schema.ZOptional? && !p.schema.ZDefault?
  {
    RequiredIn(shape, k);
  }

  /** A default is published, and nothing else about the schema changes. */
  lemma DefaultIsPublished(inner: Schema, default: Json)
    ensures ToJsonSchema(ZDefault(inner, default)).defaultOf == Some(default)
    ensures ToJsonSchema(ZDefault(inner, default)).(defaultOf := None) == ToJsonSchema(inner).(defaultOf := None)
  {}

  /** The tag of a case is the literal under the first property of that name. */
  lemma {:induction false} TagIs(before: seq<Prop>, tag: string, value: Json, after: seq<Prop>)
    requires forall p :: p in before ==> p.key != tag
    ensures TagOf(ZObject(before + ([Prop(tag, ZLiteral(value))] + after)), tag) == Some(value)
  {
    var rest := [Prop(tag, ZLiteral(value))] + after;
    if before == [] {
      assert before + rest == rest;
    } else {
      assert before[0] in before && forall p :: p in before[1..] ==> p in before;
      assert (before + rest)[1..] == before[1..] + rest;
      TagIs(before[1..], tag, value, after);
    }
  }

  ghost predicate Names(shape: seq<Prop>, k: string) {
    exists p :: p in shape && p.key == k
  }

  ghost predicate Publishes(properties: seq<JsonProp>, k: string) {
    exists p :: p in properties && p.key == k
  }

  ghost predicate KeywordsFit(properties: seq<JsonProp>, required: seq<string>, v: Json)
    requires v.JObj?
  {
    && (forall k :: k in required ==> k in v.fields)
    && (forall p :: p in properties && p.key in v.fields ==> Valid(p.schema, v.fields[p.key]))
    && (forall k :: k in v.fields ==> Publishes(properties, k))
  }

  lemma ObjectMeaning(properties: seq<JsonProp>, required: seq<string>, v: Json)
    ensures Valid(Typed("object").(properties := properties, required := required, more := NoMore), v)
       <==> v.JObj? && KeywordsFit(properties, required, v)
  {
    assert HasType("object", v) <==> v.JObj?;
  }

  lemma PublishesNames(shape: seq<Prop>, k: string)
    ensures Publishes(Properties(shape), k) <==> Names(shape, k)
  {
    var props := Properties(shape);
    PropertiesAt(shape);
    if p :| p in shape && p.key == k {
      var i :| 0 <= i < |shape| && shape[i] == p;
      assert props[i] in props;
    }
    if q :| q in props && q.key == k {
      var i :| 0 <= i < |shape| && props[i] == q;
      assert shape[i] in shape;
    }
  }

  lemma RequiredAgrees(shape: seq<Prop>, v: Json)
    requires MissingKeysFit(shape) && v.JObj?
    ensures RequiredPresent(shape, v) <==> AbsentFits(shape, v)
  {
    forall k ensures k in Required(shape) <==> exists p :: p in shape && p.key == k && !IsOptionalish(p.schema) {
      RequiredIn(shape, k);
    }
  }

  /** No unknown key, and an accepted value under every key present. */
  ghost predicate PresentFits(shape: seq<Prop>, v: Json)
    requires v.JObj?
  {
    && (forall k :: k in v.fields ==> Names(shape, k))
    && forall p :: p in shape && p.key in v.fields ==> Accepts(p.schema, v.fields[p.key])
  }

  ghost predicate RequiredPresent(shape: seq<Prop>, v: Json)
    requires v.JObj?
  {
    forall k :: k in Required(shape) ==> k in v.fields
  }

  ghost predicate AbsentFits(shape: seq<Prop>, v: Json)
    requires v.JObj?
  {
    forall p :: p in shape && p.key !in v.fields ==> AcceptsAbsent(p.schema)
  }

  lemma KeysPublished(shape: seq<Prop>, v: Json)
    requires v.JObj?
    ensures (forall k :: k in v.fields ==> Publishes(Properties(shape), k)) <==> (forall k :: k in v.fields ==> Names(shape, k))
  {
    forall k ensures Publishes(Properties(shape), k) <==> Names(shape, k) { PublishesNames(shape, k); }
  }

  lemma KeywordsOnShape(shape: seq<Prop>, v: Json)
    requires v.JObj? && forall p :: p in shape && p.key in v.fields ==> Agree(p.schema, v.fields[p.key])
    ensures KeywordsFit(Properties(shape), Required(shape), v) <==> PresentFits(shape, v) && RequiredPresent(shape, v)
  {
    PropertiesAgree(shape, v);
    KeysPublished(shape, v);
  }

  /** The published object asks for the required keys where the parser asks about the missing ones; the rest is the same. */
  lemma PublishedOnObject(shape: seq<Prop>, v: Json)
    requires v.JObj? && forall p :: p in shape && p.key in v.fields ==> Agree(p.schema, v.fields[p.key])
    ensures Valid(ToJsonSchema(ZObject(shape)), v) <==> PresentFits(shape, v) && RequiredPresent(shape, v)
  {
    ObjectMeaning(Properties(shape), Required(shape), v);
    KeywordsOnShape(shape, v);
  }

  lemma ObjectAgrees(shape: seq<Prop>, v: Json)
    requires MissingKeysFit(shape)
    requires forall p :: p in shape && v.JObj? && p.key in v.fields ==> Agree(p.schema, v.fields[p.key])
    ensures Agree(ZObject(shape), v)
  {
    if v.JObj? {
      PublishedOnObject(shape, v);
      ParserOnObject(shape, v);
      RequiredAgrees(shape, v);
    } else {
      ObjectMeaning(Properties(shape), Required(shape), v);
    }
  }

  lemma ParserOnObject(shape: seq<Prop>, v: Json)
    requires v.JObj?
    ensures Accepts(ZObject(shape), v) <==> PresentFits(shape, v) && AbsentFits(shape, v)
  {}

  lemma PropertiesAgree(shape: seq<Prop>, v: Json)
    requires v.JObj? && forall p :: p in shape && p.key in v.fields ==> Agree(p.schema, v.fields[p.key])
    ensures (forall q :: q in Properties(shape) && q.key in v.fields ==> Valid(q.schema, v.fields[q.key]))
       <==> (forall p :: p in shape && p.key in v.fields ==> Accepts(p.schema, v.fields[p.key]))
  {
    var props := Properties(shape);
    PropertiesAt(shape);
    if forall q :: q in props && q.key in v.fields ==> Valid(q.schema, v.fields[q.key]) {
      forall p | p in shape && p.key in v.fields ensures Accepts(p.schema, v.fields[p.key]) {
        var i :| 0 <= i < |shape| && shape[i] == p;
        assert props[i] in props;
      }
    }
    if forall p :: p in shape && p.key in v.fields ==> Accepts(p.schema, v.fields[p.key]) {
      forall q | q in props && q.key in v.fields ensures Valid(q.schema, v.fields[q.key]) {
        var i :| 0 <= i < |shape| && props[i] == q;
        assert shape[i] in shape;
      }
    }
  }

  ghost predicate SomeValid(js: seq<JsonSchema>, v: Json) {
    exists j :: j in js && Valid(j, v)
  }

  ghost predicate OneValid(js: seq<JsonSchema>, v: Json) {
    exists i :: 0 <= i < |js| && Valid(js[i], v) && forall k :: 0 <= k < |js| && Valid(js[k], v) ==> k == i
  }

  lemma OnlyChoice(choice: ChoiceField, v: Json)
    ensures FlatOk(EMPTY.(choice := choice), v)
  {}

  lemma AnyMeaning(js: seq<JsonSchema>, v: Json)
    ensures Valid(EMPTY.(choice := AnyOf(js)), v) <==> SomeValid(js, v)
  {
    OnlyChoice(AnyOf(js), v);
  }

  lemma OneMeaning(js: seq<JsonSchema>, v: Json)
    ensures Valid(EMPTY.(choice := OneOf(js)), v) <==> OneValid(js, v)
  {
    OnlyChoice(OneOf(js), v);
  }

  lemma UnionAgrees(options: seq<Schema>, v: Json)
    requires forall o :: o in options ==> Agree(o, v)
    ensures Agree(ZUnion(options), v)
  {
    AnyMeaning(ToJsonSchemas(options), v);
    SomeAgrees(options, v);
  }

  lemma SomeAgrees(options: seq<Schema>, v: Json)
    requires forall o :: o in options ==> Agree(o, v)
    ensures SomeValid(ToJsonSchemas(options), v) <==> exists o :: o in options && Accepts(o, v)
  {
    OptionsAt(options);
    forall i | 0 <= i < |options| ensures Valid(ToJsonSchemas(options)[i], v) <==> Accepts(options[i], v) {
      assert options[i] in options && Agree(options[i], v);
    }
    SomePairwise(options, ToJsonSchemas(options), v);
  }

  lemma SomePairwise(options: seq<Schema>, js: seq<JsonSchema>, v: Json)
    requires |js| == |options| && forall i :: 0 <= i < |js| ==> (Valid(js[i], v) <==> Accepts(options[i], v))
    ensures SomeValid(js, v) <==> exists o :: o in options && Accepts(o, v)
  {
    if o :| o in options && Accepts(o, v) {
      var i :| 0 <= i < |options| && options[i] == o;
      assert js[i] in js;
    }
    if j :| j in js && Valid(j, v) {
      var i :| 0 <= i < |js| && js[i] == j;
      assert options[i] in options;
    }
  }

  lemma {:induction false} TagInShape(shape: seq<Prop>, tag: string)
    ensures TagIn(shape, tag).Some? ==>
              exists p :: p in shape && p.key == tag && p.schema == ZLiteral(TagIn(shape, tag).value)
  {
    if shape != [] {
      TagInShape(shape[1..], tag);
      assert shape[0] in shape && forall p :: p in shape[1..] ==> p in shape;
    }
  }

  /** An accepted object carries the literal of its tag. */
  lemma TagIsCarried(o: Schema, tag: string, v: Json)
    requires o.ZObject? && TagOf(o, tag).Some? && Accepts(o, v)
    ensures v.JObj? && tag in v.fields && v.fields[tag] == TagOf(o, tag).value
  {
    TagInShape(o.shape, tag);
    var p :| p in o.shape && p.key == tag && p.schema == ZLiteral(TagOf(o, tag).value);
    assert !AcceptsAbsent(p.schema);
  }

  lemma TaggedAgrees(tag: string, cases: seq<Schema>, v: Json)
    requires Faithful(ZTagged(tag, cases))
    requires forall o :: o in cases ==> Agree(o, v)
    ensures Agree(ZTagged(tag, cases), v)
  {
    OneMeaning(ToJsonSchemas(cases), v);
    OneAgrees(tag, cases, v);
  }

  /** What an accepted case fixes: its own tag. */
  ghost predicate CasesAgree(tag: string, cases: seq<Schema>, js: seq<JsonSchema>, v: Json) {
    && |js| == |cases|
    && forall i :: 0 <= i < |cases| ==>
         && (Valid(js[i], v) <==> Accepts(cases[i], v))
         && (Accepts(cases[i], v) ==> v.JObj? && tag in v.fields && TagOf(cases[i], tag) == Some(v.fields[tag]))
  }

  ghost predicate TagsDiffer(tag: string, cases: seq<Schema>) {
    forall i, k :: 0 <= i < k < |cases| ==> TagOf(cases[i], tag) != TagOf(cases[k], tag)
  }

  lemma OneAgrees(tag: string, cases: seq<Schema>, v: Json)
    requires Faithful(ZTagged(tag, cases))
    requires forall o :: o in cases ==> Agree(o, v)
    ensures OneValid(ToJsonSchemas(cases), v) <==> Accepts(ZTagged(tag, cases), v)
  {
    var js := ToJsonSchemas(cases);
    OptionsAt(cases);
    forall i | 0 <= i < |cases|
      ensures Valid(js[i], v) <==> Accepts(cases[i], v)
      ensures Accepts(cases[i], v) ==> v.JObj? && tag in v.fields && TagOf(cases[i], tag) == Some(v.fields[tag])
    {
      assert cases[i] in cases && Agree(cases[i], v);
      if Accepts(cases[i], v) { TagIsCarried(cases[i], tag, v); }
    }
    assert CasesAgree(tag, cases, js, v) && TagsDiffer(tag, cases);
    TagDecides(tag, cases, js, v);
    ParserOnTag(tag, cases, v);
  }

  ghost predicate SomeCase(tag: string, cases: seq<Schema>, v: Json) {
    v.JObj? && tag in v.fields
    && exists i :: 0 <= i < |cases| && TagOf(cases[i], tag) == Some(v.fields[tag]) && Accepts(cases[i], v)
  }

  lemma ParserOnTag(tag: string, cases: seq<Schema>, v: Json)
    ensures Accepts(ZTagged(tag, cases), v) <==> SomeCase(tag, cases, v)
  {
    if SomeCase(tag, cases, v) {
      var i :| 0 <= i < |cases| && TagOf(cases[i], tag) == Some(v.fields[tag]) && Accepts(cases[i], v);
      assert cases[i] in cases;
    }
  }

  lemma TagDecides(tag: string, cases: seq<Schema>, js: seq<JsonSchema>, v: Json)
    requires CasesAgree(tag, cases, js, v) && TagsDiffer(tag, cases)
    ensures OneValid(js, v) <==> SomeCase(tag, cases, v)
  {
    if SomeCase(tag, cases, v) {
      var i :| 0 <= i < |cases| && TagOf(cases[i], tag) == Some(v.fields[tag]) && Accepts(cases[i], v);
      forall k | 0 <= k < |js| && Valid(js[k], v) ensures k == i {
        assert TagOf(cases[k], tag) == TagOf(cases[i], tag);
      }
    } else {
      assert forall i :: 0 <= i < |cases| ==> !Accepts(cases[i], v);
    }
  }

  /** Under a nullable no enumeration and no other type-less keyword can refuse null. */
  lemma {:induction false} NullIsOpen(s: Schema)
    requires NullFits(s)
    ensures var j := ToJsonSchema(s);
            j.ty != NoType ==> j.enumOf == None && j.constOf == None && j.choice == NoChoice
    decreases s
  {
    match s
    case ZString(checks) => StringChecksWrite(Typed("string"), checks);
    case ZNumber(checks) => NumberChecksWrite(Typed("number"), checks);
    case ZOptional(inner) => NullIsOpen(inner);
    case ZDefault(inner, _) => NullIsOpen(inner);
    case ZNullable(inner) => NullIsOpen(inner);
    case _ =>
  }

  lemma NullableAgrees(inner: Schema, v: Json)
    requires NullFits(inner) && Agree(inner, v)
    ensures Agree(ZNullable(inner), v)
  {
    NullIsOpen(inner);
    OrNullIsOrNull(ToJsonSchema(inner), v);
    NullableIsOrNull(inner);
    ParserOnNullable(inner, v);
  }

  lemma ParserOnNullable(inner: Schema, v: Json)
    ensures Accepts(ZNullable(inner), v) <==> Accepts(inner, v) || v.JNull?
  {}

  lemma NullableIsOrNull(inner: Schema)
    ensures ToJsonSchema(ZNullable(inner)) == OrNull(ToJsonSchema(inner))
  {}

  lemma OrNullIsOrNull(j: JsonSchema, v: Json)
    requires j.ty != NoType ==> j.enumOf == None && j.constOf == None && j.choice == NoChoice
    ensures Valid(OrNull(j), v) <==> Valid(j, v) || v.JNull?
  {
    match j.ty
    case NoType => ChoiceOfNull(j, v);
    case OneType(t) =>
      AddNull([], t, v);
      OrNullMeaning(j, j.(ty := ManyTypes([t, "null"])), v);
    case ManyTypes(ts) =>
      AddNull(ts, "null", v);
      OrNullMeaning(j, j.(ty := ManyTypes(ts + ["null"])), v);
  }

  lemma ChoiceOfNull(j: JsonSchema, v: Json)
    ensures Valid(EMPTY.(choice := AnyOf([j, Typed("null")])), v) <==> Valid(j, v) || v.JNull?
  {
    AnyMeaning([j, Typed("null")], v);
    SomeOfTwo(j, Typed("null"), v);
    NullMeaning(v);
  }

  lemma SomeOfTwo(a: JsonSchema, b: JsonSchema, v: Json)
    ensures SomeValid([a, b], v) <==> Valid(a, v) || Valid(b, v)
  {
    assert [a, b][0] in [a, b] && [a, b][1] in [a, b];
  }

  lemma NullMeaning(v: Json)
    ensures Valid(Typed("null"), v) <==> v.JNull?
    ensures HasType("null", v) <==> v.JNull?
  {}

  lemma AddNull(ts: seq<string>, t: string, v: Json)
    ensures TypeOk(ManyTypes(ts + ["null"]), v) <==> TypeOk(ManyTypes(ts), v) || v.JNull?
    ensures TypeOk(ManyTypes([t, "null"]), v) <==> HasType(t, v) || v.JNull?
  {
    NullMeaning(v);
    assert (ts + ["null"])[|ts|] in ts + ["null"];
    assert [t, "null"][0] in [t, "null"] && [t, "null"][1] in [t, "null"];
  }

  lemma OrNullMeaning(j: JsonSchema, k: JsonSchema, v: Json)
    requires j.enumOf == None && j.constOf == None && j.choice == NoChoice
    requires k == j.(ty := k.ty) && (TypeOk(k.ty, v) <==> TypeOk(j.ty, v) || v.JNull?)
    ensures Valid(k, v) <==> Valid(j, v) || v.JNull?
  {}

  lemma ArrayAgrees(elem: Schema, min: Option<nat>, max: Option<nat>, v: Json)
    requires v.JArr? ==> forall x :: x in v.items ==> Agree(elem, x)
    ensures Agree(ZArray(elem, min, max), v)
  {
    assert HasType("array", v) <==> v.JArr?;
  }

  lemma RecordMeaning(j: JsonSchema, v: Json)
    ensures Valid(Typed("object").(more := EachMore(j)), v) <==> v.JObj? && forall k :: k in v.fields ==> Valid(j, v.fields[k])
  {
    assert HasType("object", v) <==> v.JObj?;
  }

  lemma RecordAgrees(each: Schema, v: Json)
    requires v.JObj? ==> forall k :: k in v.fields ==> Agree(each, v.fields[k])
    ensures Agree(ZRecord(each), v)
  {
    RecordMeaning(ToJsonSchema(each), v);
  }

  lemma TypedMeaning(t: string, enumOf: Option<seq<string>>, v: Json)
    ensures Valid(Typed(t).(enumOf := enumOf), v) <==> HasType(t, v) && (enumOf.Some? ==> v.JStr? && v.s in enumOf.value)
  {}

  lemma LiteralMeaning(constOf: Option<Json>, v: Json)
    ensures Valid(EMPTY.(constOf := constOf), v) <==> (constOf.Some? ==> v == constOf.value)
  {}

  lemma TypesTell(v: Json)
    ensures (HasType("boolean", v) <==> v.JBool?) && (HasType("null", v) <==> v.JNull?)
    ensures (HasType("string", v) <==> v.JStr?) && (HasType("object", v) <==> v.JObj?)
  {}

  lemma LeafAgrees(s: Schema, v: Json)
    requires s.ZBoolean? || s.ZNull? || s.ZAny? || s.ZLiteral? || s.ZEnum?
    ensures Agree(s, v)
  {
    TypesTell(v);
    match s
    case ZBoolean => TypedMeaning("boolean", None, v);
    case ZNull => TypedMeaning("null", None, v);
    case ZAny => LiteralMeaning(None, v);
    case ZLiteral(value) => LiteralMeaning(Some(value), v);
    case ZEnum(values) => TypedMeaning("string", Some(values), v);
  }

  lemma OptionalAgrees(inner: Schema, v: Json)
    requires Agree(inner, v)
    ensures Agree(ZOptional(inner), v)
  {}

  lemma DefaultAgrees(inner: Schema, default: Json, v: Json)
    requires Agree(inner, v)
    ensures Agree(ZDefault(inner, default), v)
  {
    DefaultIsAnnotation(ToJsonSchema(inner), default, v);
  }

  lemma DefaultIsAnnotation(j: JsonSchema, default: Json, v: Json)
    ensures Valid(j.(defaultOf := Some(default)), v) <==> Valid(j, v)
  {}

  /** A faithful schema's published form takes exactly the values the parser takes. */
  lemma {:induction false} PublishedIsFaithful(s: Schema, v: Json)
    requires Faithful(s)
    ensures Agree(s, v)
    decreases s
  {
    match s
    case ZString(checks) => StringAgreesExactly(checks);
    case ZNumber(checks) => NumberAgrees(checks, v);
    case ZArray(elem, min, max) =>
      if v.JArr? {
        forall x | x in v.items ensures Agree(elem, x) { PublishedIsFaithful(elem, x); }
      }
      ArrayAgrees(elem, min, max, v);
    case ZObject(shape) =>
      if v.JObj? {
        forall p | p in shape && p.key in v.fields ensures Agree(p.schema, v.fields[p.key]) {
          PublishedIsFaithful(p.schema, v.fields[p.key]);
        }
      }
      ObjectAgrees(shape, v);
    case ZRecord(each) =>
      if v.JObj? {
        forall k | k in v.fields ensures Agree(each, v.fields[k]) { PublishedIsFaithful(each, v.fields[k]); }
      }
      RecordAgrees(each, v);
    case ZUnion(options) =>
      forall o | o in options ensures Agree(o, v) { PublishedIsFaithful(o, v); }
      UnionAgrees(options, v);
    case ZTagged(tag, cases) =>
      forall o | o in cases ensures Agree(o, v) { PublishedIsFaithful(o, v); }
      TaggedAgrees(tag, cases, v);
    case ZOptional(inner) =>
      PublishedIsFaithful(inner, v);
      OptionalAgrees(inner, v);
    case ZNullable(inner) =>
      PublishedIsFaithful(inner, v);
      NullableAgrees(inner, v);
    case ZDefault(inner, default) =>
      PublishedIsFaithful(inner, v);
      DefaultAgrees(inner, default, v);
    case _ => LeafAgrees(s, v);
  }

  // ----- Null and missing keys, exactly -----

  /** An enumeration stays in the published form, under optional, default and nullable alike. */
  lemma {:induction false} EnumerationStays(s: Schema)
    requires !NullFits(s)
    ensures ToJsonSchema(s).ty != NoType && ToJsonSchema(s).enumOf.Some?
    decreases s
  {
    match s
    case ZOptional(inner) => EnumerationStays(inner);
    case ZDefault(inner, _) => EnumerationStays(inner);
    case ZNullable(inner) => EnumerationStays(inner);
    case _ =>
  }

  /** A nullable over an enumeration is published so that null is refused. */
  lemma NullableEnumRefusesNull(inner: Schema)
    requires !NullFits(inner)
    ensures !Agree(ZNullable(inner), JNull)
  {
    EnumerationStays(inner);
    assert ToJsonSchema(ZNullable(inner)).enumOf.Some?;
  }

  /** A nullable is published faithfully exactly when what it wraps is no enumeration. */
  lemma NullableAgreesExactly(inner: Schema)
    requires forall v :: Agree(inner, v)
    ensures (forall v :: Agree(ZNullable(inner), v)) <==> NullFits(inner)
  {
    if NullFits(inner) {
      forall v ensures Agree(ZNullable(inner), v) { NullableAgrees(inner, v); }
    } else {
      NullableEnumRefusesNull(inner);
    }
  }

  ghost predicate Satisfiable(s: Schema) { exists v :: Accepts(s, v) }

  predicate DistinctKeys(shape: seq<Prop>) {
    forall i, k :: 0 <= i < k < |shape| ==> shape[i].key != shape[k].key
  }

  lemma KeysOfRest(shape: seq<Prop>)
    requires DistinctKeys(shape) && shape != []
    ensures DistinctKeys(shape[1..]) && !Names(shape[1..], shape[0].key)
    ensures forall k :: Names(shape, k) <==> k == shape[0].key || Names(shape[1..], k)
  {
    var rest := shape[1..];
    forall i, k | 0 <= i < k < |rest| ensures rest[i].key != rest[k].key { assert shape[i + 1].key != shape[k + 1].key; }
    forall p | p in rest ensures p.key != shape[0].key {
      var i :| 0 <= i < |rest| && rest[i] == p;
      assert shape[i + 1] == p;
    }
    assert shape == [shape[0]] + rest && shape[0] in shape;
  }

  ghost predicate Fills(shape: seq<Prop>, fields: map<string, Json>) {
    && (forall p :: p in shape ==> p.key in fields && Accepts(p.schema, fields[p.key]))
    && forall k :: k in fields ==> Names(shape, k)
  }

  /** An object with an accepted value under every key. */
  lemma {:induction false} FullObject(shape: seq<Prop>) returns (fields: map<string, Json>)
    requires DistinctKeys(shape) && forall p :: p in shape ==> Satisfiable(p.schema)
    ensures Fills(shape, fields)
  {
    if shape == [] {
      fields := map[];
    } else {
      assert shape[0] in shape && forall p :: p in shape[1..] ==> p in shape;
      KeysOfRest(shape);
      var more := FullObject(shape[1..]);
      var v :| Accepts(shape[0].schema, v);
      fields := more[shape[0].key := v];
      FillsOneMore(shape, more, v);
    }
  }

  lemma FillsOneMore(shape: seq<Prop>, more: map<string, Json>, v: Json)
    requires shape != [] && DistinctKeys(shape) && Fills(shape[1..], more) && Accepts(shape[0].schema, v)
    ensures Fills(shape, more[shape[0].key := v])
  {
    var fields := more[shape[0].key := v];
    KeysOfRest(shape);
    forall p | p in shape ensures p.key in fields && Accepts(p.schema, fields[p.key]) { FilledIn(shape, more, v, p); }
  }

  lemma FilledIn(shape: seq<Prop>, more: map<string, Json>, v: Json, p: Prop)
    requires shape != [] && !Names(shape[1..], shape[0].key) && p in shape
    requires (forall q :: q in shape[1..] ==> q.key in more && Accepts(q.schema, more[q.key])) && Accepts(shape[0].schema, v)
    ensures var fields := more[shape[0].key := v]; p.key in fields && Accepts(p.schema, fields[p.key])
  {
    assert shape == [shape[0]] + shape[1..];
    if p != shape[0] { assert p in shape[1..] && p.key != shape[0].key; }
  }

  /** One key left out of an otherwise accepted object shows whether the two sides agree about leaving it out. */
  lemma LeavingOut(shape: seq<Prop>, p: Prop, fields: map<string, Json>)
    requires DistinctKeys(shape) && p in shape && Fills(shape, fields)
    requires forall q :: q in shape && q != p ==> Agree(q.schema, fields[q.key])
    ensures Agree(ZObject(shape), JObj(fields - {p.key})) <==> (AcceptsAbsent(p.schema) <==> IsOptionalish(p.schema))
  {
    var v := JObj(fields - {p.key});
    forall q | q in shape && q != p ensures q.key != p.key { KeysTell(shape, p, q); }
    PublishedOnObject(shape, v);
    ParserOnObject(shape, v);
    assert PresentFits(shape, v) && (AbsentFits(shape, v) <==> AcceptsAbsent(p.schema));
    RequiredWithoutOne(shape, p, v);
  }

  lemma RequiredWithoutOne(shape: seq<Prop>, p: Prop, v: Json)
    requires v.JObj? && DistinctKeys(shape) && p in shape && forall q :: q in shape ==> (q.key in v.fields <==> q.key != p.key)
    ensures RequiredPresent(shape, v) <==> IsOptionalish(p.schema)
  {
    forall q | q in shape && q != p ensures q.key != p.key { KeysTell(shape, p, q); }
    forall k ensures k in Required(shape) <==> exists q :: q in shape && q.key == k && !IsOptionalish(q.schema) {
      RequiredIn(shape, k);
    }
  }

  lemma KeysTell(shape: seq<Prop>, p: Prop, q: Prop)
    requires DistinctKeys(shape) && p in shape && q in shape && p != q
    ensures p.key != q.key
  {
    var i :| 0 <= i < |shape| && shape[i] == p;
    var k :| 0 <= k < |shape| && shape[k] == q;
  }

  /** An object of faithful and satisfiable properties is published faithfully exactly when its missing keys fit. */
  lemma ObjectAgreesExactly(shape: seq<Prop>)
    requires DistinctKeys(shape)
    requires forall p :: p in shape ==> Satisfiable(p.schema) && forall v :: Agree(p.schema, v)
    ensures (forall v :: Agree(ZObject(shape), v)) <==> MissingKeysFit(shape)
  {
    if MissingKeysFit(shape) {
      forall v ensures Agree(ZObject(shape), v) { ObjectAgrees(shape, v); }
    } else {
      var fields := FullObject(shape);
      var p :| p in shape && !(AcceptsAbsent(p.schema) <==> IsOptionalish(p.schema));
      LeavingOut(shape, p, fields);
    }
  }

  // ----- What the condition is for -----

  /** A key whose optionality is under a nullable may be left out, but is published as required. */
  lemma NullableOptionalIsRequired(key: string, inner: Schema)
    ensures !Agree(ZObject([Prop(key, ZNullable(ZOptional(inner)))]), JObj(map[]))
  {
    var shape := [Prop(key, ZNullable(ZOptional(inner)))];
    assert shape[0] in shape;
    RequiredIn(shape, key);
    PublishedOnObject(shape, JObj(map[]));
    ParserOnObject(shape, JObj(map[]));
    assert key in Required(shape) && AcceptsAbsent(shape[0].schema);
  }
}
