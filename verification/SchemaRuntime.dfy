// The schema object: a builder over a list of fields, and the validators as
// they push into the list of errors.
module SchemaRuntime {
  import opened Outcomes
  import opened ContainerSchemas
  import opened SchemaTheorems

  class ContainerSchema {
    var fields: seq<FieldDef>

    constructor ()
      ensures fields == []
    {
      fields := [];
    }

    // require and optional, with or without a nested schema, which is copied.
    method Define(key: string, kind: Kind, required: bool, nested: Nested)
      modifies this
      ensures fields == old(fields) +
                        [FieldDef(key, kind, required, None, None, None, None, None, None, "", None, None, nested, [])]
    {
      fields := fields + [Plain(key, kind, required, nested)];
    }

    method FindField(key: string) returns (k: nat)
      ensures k == FieldAt(fields, key)
    {
      k := 0;
      while k < |fields| && fields[k].name != key
        invariant k <= |fields| && k + FieldAt(fields[k..], key) == FieldAt(fields, key)
      {
        assert fields[k..][1..] == fields[k + 1..];
        k := k + 1;
      }
    }

    // The first field of that name is changed; without one, nothing is.
    ghost function With(key: string, change: FieldDef -> FieldDef): seq<FieldDef>
      reads this
    {
      var k := FieldAt(fields, key);
      if k < |fields| then fields[k := change(fields[k])] else fields
    }

    method RangeInt64(key: string, min: int, max: int)
      modifies this
      ensures fields == old(With(key, (f: FieldDef) => f.(minInt := Some(min), maxInt := Some(max))))
    {
      var k := FindField(key);
      if k < |fields| {
        fields := fields[k := fields[k].(minInt := Some(min), maxInt := Some(max))];
      }
    }

    method RangeDouble(key: string, min: real, max: real)
      modifies this
      ensures fields == old(With(key, (f: FieldDef) => f.(minReal := Some(min), maxReal := Some(max))))
    {
      var k := FindField(key);
      if k < |fields| {
        fields := fields[k := fields[k].(minReal := Some(min), maxReal := Some(max))];
      }
    }

    method Length(key: string, min: nat, max: nat)
      modifies this
      ensures fields == old(With(key, (f: FieldDef) => f.(minLength := Some(min), maxLength := Some(max))))
    {
      var k := FindField(key);
      if k < |fields| {
        fields := fields[k := fields[k].(minLength := Some(min), maxLength := Some(max))];
      }
    }

    // compiled is None for text that is not a regular expression.
    method Pattern(key: string, pattern: string, compiled: Option<string -> Match>)
      modifies this
      ensures fields == old(With(key, (f: FieldDef) => f.(pattern := pattern, compiled := compiled)))
    {
      var k := FindField(key);
      if k < |fields| {
        fields := fields[k := fields[k].(pattern := pattern, compiled := compiled)];
      }
    }

    method OneOf(key: string, allowed: seq<string>)
      modifies this
      ensures fields == old(With(key, (f: FieldDef) => f.(allowed := Some(allowed))))
    {
      var k := FindField(key);
      if k < |fields| {
        fields := fields[k := fields[k].(allowed := Some(allowed))];
      }
    }

    method Custom(key: string, check: Value -> Verdict)
      modifies this
      ensures fields == old(With(key, (f: FieldDef) => f.(custom := f.custom + [check])))
    {
      var k := FindField(key);
      if k < |fields| {
        fields := fields[k := fields[k].(custom := fields[k].custom + [check])];
      }
    }

    method ValidateAll(us: seq<Value>, at: Contents) returns (errors: seq<Error>)
      ensures errors == Errors(fields, us, at)
      ensures errors == [] <==> Satisfies(fields, us, at)
    {
      errors := ValidateFields(fields, us, at);
      NoErrors(fields, us, at);
    }

    // The first error, or none exactly when the schema is satisfied.
    method Validate(us: seq<Value>, at: Contents) returns (error: Option<Error>)
      ensures error.None? <==> Satisfies(fields, us, at)
      ensures error.Some? ==> Errors(fields, us, at) != [] && error.value == Errors(fields, us, at)[0]
    {
      var errors := ValidateAll(us, at);
      error := if errors == [] then None else Some(errors[0]);
    }
  }

  method ValidateFields(fs: seq<FieldDef>, us: seq<Value>, at: Contents) returns (errors: seq<Error>)
    ensures errors == Errors(fs, us, at)
    decreases fs, 2
  {
    errors := [];
    var i := 0;
    while i < |fs|
      invariant i <= |fs| && errors == Errors(fs[..i], us, at)
    {
      hide FieldErrors, Errors;
      var f := fs[i];
      assert fs decreases to f;
      var found := Lookup(us, f.name);
      ErrorsConcat(fs[..i], [f], us, at);
      OneField(f, us, at);
      assert fs[..i + 1] == fs[..i] + [f];
      Step(f, us, at);
      if found.None? {
        if f.required {
          errors := errors + [Error(f.name, MissingRequired(f.name))];
        }
      } else {
        errors := ValidateField(f, found.value, at, errors);
      }
      i := i + 1;
    }
    assert fs[..i] == fs;
  }

  // A field's errors, by whether there is a value for it.
  lemma {:induction false} Step(f: FieldDef, us: seq<Value>, at: Contents)
    ensures FieldErrors(f, us, at) == match Find(us, f.name)
            case None => if f.required then [Error(f.name, MissingRequired(f.name))] else []
            case Some(v) => RuleErrors(f, v) + NestedErrors(f, v, at)
  {
  }

  method Lookup(us: seq<Value>, name: string) returns (r: Option<Value>)
    ensures r == Find(us, name)
  {
    var i := 0;
    while i < |us|
      invariant i <= |us| && Find(us[i..], name) == Find(us, name)
    {
      if us[i].name == name {
        return Some(us[i]);
      }
      assert us[i..][1..] == us[i + 1..];
      i := i + 1;
    }
    r := None;
  }

  method ValidateField(f: FieldDef, v: Value, at: Contents, errors: seq<Error>) returns (es: seq<Error>)
    ensures es == errors + (RuleErrors(f, v) + NestedErrors(f, v, at))
    decreases f, 1
  {
    hide NestedErrors, AsError, TypeCause, RangeCause, LengthCause, PatternCause, AllowedCause, CustomCause;
    es := ValidateType(f, v, errors);
    es := ValidateRange(f, v, es);
    es := ValidateLength(f, v, es);
    es := ValidatePattern(f, v, es);
    es := ValidateAllowed(f, v, es);
    es := ValidateCustom(f, v, es);
    assert es == errors + RuleErrors(f, v);
    hide RuleErrors;
    es := ValidateNested(f, v, at, es);
  }

  method ValidateType(f: FieldDef, v: Value, errors: seq<Error>) returns (es: seq<Error>)
    ensures es == errors + AsError(f.name, TypeCause(f, v))
  {
    es := errors;
    if v.kind != f.kind {
      es := es + [Error(f.name, TypeMismatch(f.name, f.kind, v.kind))];
    }
  }

  method ValidateRange(f: FieldDef, v: Value, errors: seq<Error>) returns (es: seq<Error>)
    ensures es == errors + AsError(f.name, RangeCause(f, v))
  {
    es := errors;
    if f.minInt.Some? && f.maxInt.Some? {
      var val, hasValue := 0, false;
      if v.data.Number? && v.data.kind == v.kind {
        if v.kind in {Short, UShort, Int, UInt, Long, LLong} {
          val, hasValue := v.data.n, true;
        } else if v.kind in {ULong, ULLong} {
          val, hasValue := AsInt64(v.data.n), true;
        }
      }
      if hasValue && (val < f.minInt.value || val > f.maxInt.value) {
        es := es + [Error(f.name, OutOfRange(f.name, val, f.minInt.value, f.maxInt.value))];
        return;
      }
    }
    if f.minReal.Some? && f.maxReal.Some? {
      var val, hasValue := 0.0, false;
      if v.kind in {Float, Double} && v.data.Decimal? && v.data.kind == v.kind {
        val, hasValue := v.data.r, true;
      }
      if hasValue && (val < f.minReal.value || val > f.maxReal.value) {
        es := es + [Error(f.name, OutOfRealRange(f.name, val, f.minReal.value, f.maxReal.value))];
      }
    }
  }

  method ValidateLength(f: FieldDef, v: Value, errors: seq<Error>) returns (es: seq<Error>)
    ensures es == errors + AsError(f.name, LengthCause(f, v))
  {
    es := errors;
    if f.minLength.None? || f.maxLength.None? {
      return;
    }
    var len, hasLength := 0, false;
    if v.kind == Text && v.data.Str? {
      len, hasLength := |v.data.s|, true;
    } else if v.kind == Bytes && v.data.Blob? {
      len, hasLength := v.data.size, true;
    }
    if hasLength && (len < f.minLength.value || len > f.maxLength.value) {
      es := es + [Error(f.name, InvalidLength(f.name, len, f.minLength.value, f.maxLength.value))];
    }
  }

  method ValidatePattern(f: FieldDef, v: Value, errors: seq<Error>) returns (es: seq<Error>)
    ensures es == errors + AsError(f.name, PatternCause(f, v))
  {
    es := errors;
    if f.compiled.None? || v.kind != Text || !v.data.Str? {
      return;
    }
    match f.compiled.value(v.data.s)
    case Matches =>
    case Differs => es := es + [Error(f.name, PatternMismatch(f.name, f.pattern))];
    case Faults => es := es + [Error(f.name, PatternMismatch(f.name, f.pattern))];
  }

  method ValidateAllowed(f: FieldDef, v: Value, errors: seq<Error>) returns (es: seq<Error>)
    ensures es == errors + AsError(f.name, AllowedCause(f, v))
  {
    es := errors;
    if f.allowed.None? || v.kind != Text || !v.data.Str? {
      return;
    }
    if v.data.s !in f.allowed.value {
      es := es + [Error(f.name, NotAllowed(f.name, v.data.s))];
    }
  }

  method ValidateCustom(f: FieldDef, v: Value, errors: seq<Error>) returns (es: seq<Error>)
    ensures es == errors + AsError(f.name, CustomCause(f.name, f.custom, v))
  {
    es := errors;
    var i := 0;
    while i < |f.custom|
      invariant i <= |f.custom| && CustomCause(f.name, f.custom[i..], v) == CustomCause(f.name, f.custom, v)
    {
      match f.custom[i](v) {
        case Passed =>
        case Rejected(reason) =>
          es := es + [Error(f.name, CustomFailed(f.name, reason))];
          return;
        case Threw =>
          es := es + [Error(f.name, CustomFailed(f.name, "Validator threw an exception"))];
          return;
      }
      assert f.custom[i..][1..] == f.custom[i + 1..];
      i := i + 1;
    }
  }

  method ValidateNested(f: FieldDef, v: Value, at: Contents, errors: seq<Error>) returns (es: seq<Error>)
    ensures es == errors + NestedErrors(f, v, at)
    decreases f, 0
  {
    es := errors;
    if f.nested.NoSchema? || v.kind != Container {
      return;
    }
    if !v.data.Box? || v.data.at.None? {
      es := es + [Error(f.name, NestedFailed(f.name, 0))];
      return;
    }
    var inner := ValidateFields(f.nested.fields, at(v.data.at.value), at);
    es := AppendBlock(f.name, inner, es);
  }

  // The summary, and the nested errors with the field's name in front.
  method AppendBlock(name: string, inner: seq<Error>, errors: seq<Error>) returns (es: seq<Error>)
    ensures es == errors + Block(name, inner)
  {
    es := errors;
    if inner != [] {
      es := es + [Error(name, NestedFailed(name, |inner|))];
      ghost var start := es;
      var i := 0;
      assert inner[i..] == inner;
      while i < |inner|
        invariant i <= |inner| && es + Prefixed(name, inner[i..]) == start + Prefixed(name, inner)
      {
        hide Prefixed;
        var e := inner[i];
        PrefixStep(name, inner[i..]);
        assert inner[i..][1..] == inner[i + 1..];
        es := es + [Error(name + "." + e.field, e.cause)];
        i := i + 1;
      }
      assert Prefixed(name, inner[i..]) == [];
      assert es == start + Prefixed(name, inner);
      assert Block(name, inner) == [Error(name, NestedFailed(name, |inner|))] + Prefixed(name, inner);
    }
    assert Block(name, []) == [];
  }

  lemma {:induction false} PrefixStep(name: string, es: seq<Error>)
    requires es != []
    ensures Prefixed(name, es) == [Error(name + "." + es[0].field, es[0].cause)] + Prefixed(name, es[1..])
  {
  }
}
