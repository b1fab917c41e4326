// Schemas of value containers: the fields a schema defines, the errors a
// container has against it, and what satisfying it means.
module ContainerSchemas {
  import opened Outcomes

  datatype Kind =
    | Null | Bool | Short | UShort | Int | UInt | Long | ULong | LLong | ULLong
    | Float | Double | Text | Bytes | Container | Array

  predicate Whole(k: Kind) {
    k in {Short, UShort, Int, UInt, Long, ULong, LLong, ULLong}
  }

  // What the variant of a value holds. A container is known by its address,
  // and may be missing; Other stands for the alternatives no rule looks into.
  datatype Data =
    | Number(kind: Kind, n: int)
    | Decimal(kind: Kind, r: real)
    | Str(s: string)
    | Blob(size: nat)
    | Box(at: Option<nat>)
    | Other

  // The kind is stored beside the variant, and may disagree with it.
  datatype Value = Value(name: string, kind: Kind, data: Data)

  // The values of each container, so that containers may share and hold
  // each other.
  type Contents = nat -> seq<Value>

  // The answers of a regular expression, and of a caller's validator.
  datatype Match = Matches | Differs | Faults
  datatype Verdict = Passed | Rejected(reason: string) | Threw

  datatype FieldDef = FieldDef(
    name: string, kind: Kind, required: bool,
    minInt: Option<int>, maxInt: Option<int>,
    minReal: Option<real>, maxReal: Option<real>,
    minLength: Option<nat>, maxLength: Option<nat>,
    pattern: string, compiled: Option<string -> Match>,
    allowed: Option<seq<string>>,
    nested: Nested,
    custom: seq<Value -> Verdict>)

  // A nested schema is copied into the field.
  datatype Nested = NoSchema | Sub(fields: seq<FieldDef>)

  function Plain(name: string, kind: Kind, required: bool, nested: Nested): FieldDef {
    FieldDef(name, kind, required, None, None, None, None, None, None, "", None, None, nested, [])
  }

  // The first value of that name, as get() returns it.
  function Find(us: seq<Value>, name: string): Option<Value> {
    if us == [] then None else if us[0].name == name then Some(us[0]) else Find(us[1..], name)
  }

  // ---- What the rules compare ----

  const TWO63: int := 0x8000_0000_0000_0000
  const TWO64: int := 0x1_0000_0000_0000_0000

  // static_cast<int64_t> of a value of a 64-bit unsigned type.
  function AsInt64(n: int): int {
    if n >= TWO63 then n - TWO64 else n
  }

  // The number the integer range looks at.
  function WholeOf(v: Value): Option<int> {
    if Whole(v.kind) && v.data.Number? && v.data.kind == v.kind then
      Some(if v.kind in {ULong, ULLong} then AsInt64(v.data.n) else v.data.n)
    else None
  }

  function RealOf(v: Value): Option<real> {
    if v.kind in {Float, Double} && v.data.Decimal? && v.data.kind == v.kind then Some(v.data.r) else None
  }

  function LengthOf(v: Value): Option<nat> {
    if v.kind == Text && v.data.Str? then Some(|v.data.s|)
    else if v.kind == Bytes && v.data.Blob? then Some(v.data.size)
    else None
  }

  function TextOf(v: Value): Option<string> {
    if v.kind == Text && v.data.Str? then Some(v.data.s) else None
  }

  function BoxOf(v: Value): Option<nat> {
    if v.data.Box? then v.data.at else None
  }

  // ---- Errors ----

  // A rule and what its message quotes.
  datatype Cause =
    | MissingRequired(name: string)
    | TypeMismatch(name: string, expected: Kind, actual: Kind)
    | OutOfRange(name: string, value: int, min: int, max: int)
    | OutOfRealRange(name: string, amount: real, least: real, most: real)
    | InvalidLength(name: string, length: nat, shortest: nat, longest: nat)
    | PatternMismatch(name: string, pattern: string)
    | NotAllowed(name: string, text: string)
    | CustomFailed(name: string, reason: string)
    | NestedFailed(name: string, count: nat)

  // The field is a path from the schema that validates.
  datatype Error = Error(field: string, cause: Cause)

  function Reason(v: Verdict): string {
    if v.Rejected? then v.reason else "Validator threw an exception"
  }

  function TypeCause(f: FieldDef, v: Value): Option<Cause> {
    if v.kind != f.kind then Some(TypeMismatch(f.name, f.kind, v.kind)) else None
  }

  // The real range is looked at only if the integer range found nothing.
  function RangeCause(f: FieldDef, v: Value): Option<Cause> {
    var n, r := WholeOf(v), RealOf(v);
    if f.minInt.Some? && f.maxInt.Some? && n.Some? && (n.value < f.minInt.value || n.value > f.maxInt.value) then
      Some(OutOfRange(f.name, n.value, f.minInt.value, f.maxInt.value))
    else if f.minReal.Some? && f.maxReal.Some? && r.Some? && (r.value < f.minReal.value || r.value > f.maxReal.value) then
      Some(OutOfRealRange(f.name, r.value, f.minReal.value, f.maxReal.value))
    else None
  }

  function LengthCause(f: FieldDef, v: Value): Option<Cause> {
    var n := LengthOf(v);
    if f.minLength.Some? && f.maxLength.Some? && n.Some? && (n.value < f.minLength.value || n.value > f.maxLength.value) then
      Some(InvalidLength(f.name, n.value, f.minLength.value, f.maxLength.value))
    else None
  }

  function PatternCause(f: FieldDef, v: Value): Option<Cause> {
    var t := TextOf(v);
    if f.compiled.Some? && t.Some? && !f.compiled.value(t.value).Matches? then Some(PatternMismatch(f.name, f.pattern)) else None
  }

  function AllowedCause(f: FieldDef, v: Value): Option<Cause> {
    var t := TextOf(v);
    if f.allowed.Some? && t.Some? && t.value !in f.allowed.value then Some(NotAllowed(f.name, t.value)) else None
  }

  // The first validator that does not pass ends the rule.
  function CustomCause(name: string, custom: seq<Value -> Verdict>, v: Value): Option<Cause> {
    if custom == [] then None
    else if custom[0](v).Passed? then CustomCause(name, custom[1..], v)
    else Some(CustomFailed(name, Reason(custom[0](v))))
  }

  function AsError(name: string, c: Option<Cause>): seq<Error> {
    if c.Some? then [Error(name, c.value)] else []
  }

  // A field's errors but for those of its nested schema.
  function RuleErrors(f: FieldDef, v: Value): seq<Error> {
    AsError(f.name, TypeCause(f, v)) + AsError(f.name, RangeCause(f, v)) + AsError(f.name, LengthCause(f, v)) +
    AsError(f.name, PatternCause(f, v)) + AsError(f.name, AllowedCause(f, v)) + AsError(f.name, CustomCause(f.name, f.custom, v))
  }

  function Prefixed(name: string, es: seq<Error>): (r: seq<Error>)
    ensures |r| == |es|
  {
    if es == [] then [] else [Error(name + "." + es[0].field, es[0].cause)] + Prefixed(name, es[1..])
  }

  // One summary, then the nested schema's own errors.
  function Block(name: string, es: seq<Error>): seq<Error> {
    if es == [] then [] else [Error(name, NestedFailed(name, |es|))] + Prefixed(name, es)
  }

  function NestedErrors(f: FieldDef, v: Value, at: Contents): seq<Error>
    decreases f, 0
  {
    if f.nested.NoSchema? || v.kind != Container then []
    else if BoxOf(v).None? then [Error(f.name, NestedFailed(f.name, 0))]
    else Block(f.name, Errors(f.nested.fields, at(BoxOf(v).value), at))
  }

  function FieldErrors(f: FieldDef, us: seq<Value>, at: Contents): seq<Error>
    decreases f, 1
  {
    match Find(us, f.name)
    case None => if f.required then [Error(f.name, MissingRequired(f.name))] else []
    case Some(v) => RuleErrors(f, v) + NestedErrors(f, v, at)
  }

  // validate_all: the errors of the container with values us.
  function Errors(fs: seq<FieldDef>, us: seq<Value>, at: Contents): seq<Error>
    decreases fs, 2
  {
    if fs == [] then []
    else
      assert fs decreases to fs[0];
      FieldErrors(fs[0], us, at) + Errors(fs[1..], us, at)
  }

  // ---- What it means to satisfy a schema ----

  // What a value holds for a rule to look at. A value whose kind and variant
  // disagree holds nothing; the 64-bit unsigned kinds are looked at as signed.
  predicate HoldsWhole(v: Value, x: int) {
    v.data.Number? && v.data.kind == v.kind &&
    match v.kind
    case Short | UShort | Int | UInt | Long | LLong => x == v.data.n
    case ULong | ULLong =>
      x == if v.data.n < 0x8000_0000_0000_0000 then v.data.n else v.data.n - 0x1_0000_0000_0000_0000
    case _ => false
  }

  predicate HoldsReal(v: Value, x: real) {
    (v.kind == Float && v.data == Decimal(Float, x)) || (v.kind == Double && v.data == Decimal(Double, x))
  }

  predicate HoldsLength(v: Value, n: nat) {
    (v.kind == Text && v.data.Str? && n == |v.data.s|) || (v.kind == Bytes && v.data == Blob(n))
  }

  predicate HoldsText(v: Value, t: string) {
    v.kind == Text && v.data == Str(t)
  }

  ghost predicate RulesHold(f: FieldDef, v: Value) {
    v.kind == f.kind &&
    (f.minInt.Some? && f.maxInt.Some? ==> forall x :: HoldsWhole(v, x) ==> f.minInt.value <= x <= f.maxInt.value) &&
    (f.minReal.Some? && f.maxReal.Some? ==> forall x :: HoldsReal(v, x) ==> f.minReal.value <= x <= f.maxReal.value) &&
    (f.minLength.Some? && f.maxLength.Some? ==>
       forall n: nat :: HoldsLength(v, n) ==> f.minLength.value <= n <= f.maxLength.value) &&
    (f.compiled.Some? ==> forall t :: HoldsText(v, t) ==> f.compiled.value(t) == Matches) &&
    (f.allowed.Some? ==> forall t :: HoldsText(v, t) ==> t in f.allowed.value) &&
    forall i :: 0 <= i < |f.custom| ==> f.custom[i](v) == Passed
  }

  ghost predicate FieldHolds(f: FieldDef, us: seq<Value>, at: Contents)
    decreases f, 0
  {
    match Find(us, f.name)
    case None => !f.required
    case Some(v) =>
      RulesHold(f, v) &&
      (f.nested.Sub? && v.kind == Container ==>
         v.data.Box? && v.data.at.Some? && Satisfies(f.nested.fields, at(v.data.at.value), at))
  }

  ghost predicate Satisfies(fs: seq<FieldDef>, us: seq<Value>, at: Contents)
    decreases fs, 1
  {
    forall i :: 0 <= i < |fs| ==> FieldHolds(fs[i], us, at)
  }
}
