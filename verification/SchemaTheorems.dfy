// What the error list of a schema says: nothing exactly when the container
// satisfies it, and otherwise every violation at every depth, by its path.
module SchemaTheorems {
  import opened Outcomes
  import opened ContainerSchemas

  // ---- No errors ----

  lemma {:induction false} NoCustomCause(name: string, custom: seq<Value -> Verdict>, v: Value)
    ensures CustomCause(name, custom, v) == None <==> forall i :: 0 <= i < |custom| ==> custom[i](v) == Passed
  {
    if custom != [] {
      var tail := custom[1..];
      NoCustomCause(name, tail, v);
      if custom[0](v).Passed? && forall i :: 0 <= i < |tail| ==> tail[i](v) == Passed {
        forall i | 0 <= i < |custom| ensures custom[i](v) == Passed {
          assert i > 0 ==> custom[i] == tail[i - 1];
        }
      }
      assert forall i :: 0 <= i < |tail| ==> tail[i] == custom[i + 1];
    }
  }

  lemma {:induction false} NoRuleErrors(f: FieldDef, v: Value)
    ensures RuleErrors(f, v) == [] <==> RulesHold(f, v)
  {
    hide WholeOf, RealOf, LengthOf, TextOf, HoldsWhole, HoldsReal, HoldsLength, HoldsText, CustomCause;
    NoCustomCause(f.name, f.custom, v);
    Held(v);
  }

  // The rules look at what the value holds.
  lemma {:induction false} Held(v: Value)
    ensures forall x :: WholeOf(v) == Some(x) <==> HoldsWhole(v, x)
    ensures forall x :: RealOf(v) == Some(x) <==> HoldsReal(v, x)
    ensures forall n: nat :: LengthOf(v) == Some(n) <==> HoldsLength(v, n)
    ensures forall t :: TextOf(v) == Some(t) <==> HoldsText(v, t)
    ensures forall p: nat :: BoxOf(v) == Some(p) <==> v.data == Box(Some(p))
  {
  }

  lemma {:induction false} FieldClean(f: FieldDef, us: seq<Value>, at: Contents)
    ensures FieldErrors(f, us, at) == [] <==> FieldHolds(f, us, at)
    decreases f, 0
  {
    hide RuleErrors, RulesHold;
    match Find(us, f.name)
    case None =>
    case Some(v) =>
      NoRuleErrors(f, v);
      if f.nested.Sub? && v.kind == Container && BoxOf(v).Some? {
        NoErrors(f.nested.fields, at(BoxOf(v).value), at);
      }
  }

  // validate_all finds nothing exactly when the container satisfies the
  // schema, nested schemas included.
  lemma {:induction false} NoErrors(fs: seq<FieldDef>, us: seq<Value>, at: Contents)
    ensures Errors(fs, us, at) == [] <==> Satisfies(fs, us, at)
    decreases fs, 1
  {
    if fs != [] {
      hide FieldErrors, FieldHolds;
      assert fs decreases to fs[0];
      FieldClean(fs[0], us, at);
      NoErrors(fs[1..], us, at);
      FirstHolds(fs, us, at);
    }
  }

  lemma {:induction false} FirstHolds(fs: seq<FieldDef>, us: seq<Value>, at: Contents)
    requires fs != []
    ensures Satisfies(fs, us, at) <==> FieldHolds(fs[0], us, at) && Satisfies(fs[1..], us, at)
  {
    hide FieldHolds;
    var tail := fs[1..];
    if FieldHolds(fs[0], us, at) && Satisfies(tail, us, at) {
      forall i | 0 <= i < |fs| ensures FieldHolds(fs[i], us, at) {
        assert i > 0 ==> fs[i] == tail[i - 1];
      }
    }
    if Satisfies(fs, us, at) {
      assert forall i :: 0 <= i < |tail| ==> tail[i] == fs[i + 1];
    }
  }

  // get() returns the first value of the name.
  lemma {:induction false} FindIsFirst(us: seq<Value>, name: string, i: nat)
    requires i <= |us| && (forall j :: 0 <= j < i ==> us[j].name != name) && (i < |us| ==> us[i].name == name)
    ensures Find(us, name) == if i == |us| then None else Some(us[i])
  {
    if i > 0 {
      assert us[0].name != name;
      FindIsFirst(us[1..], name, i - 1);
    }
  }

  // ---- Every violation, by its path ----

  function Join(path: seq<string>): string
    requires path != []
  {
    if |path| == 1 then path[0] else path[0] + "." + Join(path[1..])
  }

  ghost predicate BreaksCustom(f: FieldDef, v: Value, c: Cause) {
    exists i :: 0 <= i < |f.custom| && f.custom[i](v) != Passed &&
      (forall j :: 0 <= j < i ==> f.custom[j](v) == Passed) &&
      c == CustomFailed(f.name, match f.custom[i](v) case Rejected(why) => why case _ => "Validator threw an exception")
  }

  // A value breaks one rule of its field, for the cause given.
  ghost predicate BreaksRule(f: FieldDef, v: Value, c: Cause) {
    match c
    case TypeMismatch(n, e, a) => n == f.name && e == f.kind && a == v.kind && e != a
    case OutOfRange(n, x, lo, hi) =>
      n == f.name && HoldsWhole(v, x) && f.minInt == Some(lo) && f.maxInt == Some(hi) && !(lo <= x <= hi)
    case OutOfRealRange(n, x, lo, hi) =>
      n == f.name && HoldsReal(v, x) && f.minReal == Some(lo) && f.maxReal == Some(hi) && !(lo <= x <= hi)
    case InvalidLength(n, x, lo, hi) =>
      n == f.name && HoldsLength(v, x) && f.minLength == Some(lo) && f.maxLength == Some(hi) && !(lo <= x <= hi)
    case PatternMismatch(n, p) =>
      n == f.name && p == f.pattern && f.compiled.Some? && exists t :: HoldsText(v, t) && f.compiled.value(t) != Matches
    case NotAllowed(n, t) => n == f.name && HoldsText(v, t) && f.allowed.Some? && t !in f.allowed.value
    case CustomFailed(_, _) => BreaksCustom(f, v, c)
    case MissingRequired(_) => false
    case NestedFailed(_, _) => false
  }

  ghost predicate FieldViolates(f: FieldDef, us: seq<Value>, at: Contents, path: seq<string>, c: Cause)
    decreases f, 0
  {
    path != [] && path[0] == f.name &&
    match Find(us, f.name)
    case None => |path| == 1 && f.required && c == MissingRequired(f.name)
    case Some(v) =>
      (|path| == 1 && BreaksRule(f, v, c)) ||
      (f.nested.Sub? && v.kind == Container &&
         if !v.data.Box? || v.data.at.None? then |path| == 1 && c == NestedFailed(f.name, 0)
         else
           var inner := at(v.data.at.value);
           (|path| == 1 && !Satisfies(f.nested.fields, inner, at) &&
              c == NestedFailed(f.name, |Errors(f.nested.fields, inner, at)|)) ||
           (|path| > 1 && Violates(f.nested.fields, inner, at, path[1..], c)))
  }

  // A field of the schema, or of a nested one, is violated for this cause.
  ghost predicate Violates(fs: seq<FieldDef>, us: seq<Value>, at: Contents, path: seq<string>, c: Cause)
    decreases fs, 1
  {
    exists i :: 0 <= i < |fs| && FieldViolates(fs[i], us, at, path, c)
  }

  ghost predicate FieldViolatesAt(f: FieldDef, us: seq<Value>, at: Contents, e: Error) {
    exists path :: path != [] && Join(path) == e.field && FieldViolates(f, us, at, path, e.cause)
  }

  ghost predicate ViolatesAt(fs: seq<FieldDef>, us: seq<Value>, at: Contents, e: Error) {
    exists path :: path != [] && Join(path) == e.field && Violates(fs, us, at, path, e.cause)
  }

  lemma {:induction false} CustomReported(f: FieldDef, custom: seq<Value -> Verdict>, k: nat, v: Value, c: Cause)
    requires k <= |f.custom| && custom == f.custom[k..] && forall j :: 0 <= j < k ==> f.custom[j](v) == Passed
    ensures CustomCause(f.name, custom, v) == Some(c) <==> BreaksCustom(f, v, c)
    decreases |custom|
  {
    if custom != [] {
      if custom[0](v) == Passed {
        CustomReported(f, custom[1..], k + 1, v, c);
      } else {
        assert f.custom[k](v) != Passed;
      }
    }
  }

  // The rule errors of a field are exactly the rules its value breaks; the
  // real range cannot be broken by a value the integer range looks at.
  lemma {:induction false} RulesReported(f: FieldDef, v: Value, e: Error)
    ensures e in RuleErrors(f, v) <==> e.field == f.name && BreaksRule(f, v, e.cause)
  {
    hide RuleErrors, BreaksRule;
    RuleGiven(f, v, e);
    CausesBreak(f, v, e.cause);
  }

  ghost predicate Gives(f: FieldDef, v: Value, c: Cause) {
    TypeCause(f, v) == Some(c) || RangeCause(f, v) == Some(c) || LengthCause(f, v) == Some(c) ||
    PatternCause(f, v) == Some(c) || AllowedCause(f, v) == Some(c) || CustomCause(f.name, f.custom, v) == Some(c)
  }

  lemma {:induction false} RuleGiven(f: FieldDef, v: Value, e: Error)
    ensures e in RuleErrors(f, v) <==> e.field == f.name && Gives(f, v, e.cause)
  {
    hide TypeCause, RangeCause, LengthCause, PatternCause, AllowedCause, CustomCause;
  }

  lemma {:induction false} CausesBreak(f: FieldDef, v: Value, c: Cause)
    ensures Gives(f, v, c) <==> BreaksRule(f, v, c)
  {
    hide BreaksCustom, CustomCause, WholeOf, RealOf, LengthOf, TextOf, HoldsWhole, HoldsReal, HoldsLength, HoldsText;
    Held(v);
    CustomReported(f, f.custom, 0, v, c);
    CustomNames(f.name, f.custom, v);
    OneNumber(v);
  }

  lemma {:induction false} OneNumber(v: Value)
    ensures WholeOf(v).None? || RealOf(v).None?
  {
  }

  lemma {:induction false} CustomNames(name: string, custom: seq<Value -> Verdict>, v: Value)
    ensures CustomCause(name, custom, v).Some? ==> CustomCause(name, custom, v).value.CustomFailed?
  {
    if custom != [] {
      CustomNames(name, custom[1..], v);
    }
  }

  lemma {:induction false} PrefixedAt(name: string, es: seq<Error>)
    ensures forall i :: 0 <= i < |es| ==> Prefixed(name, es)[i] == Error(name + "." + es[i].field, es[i].cause)
  {
    if es != [] {
      PrefixedAt(name, es[1..]);
      assert Prefixed(name, es)[1..] == Prefixed(name, es[1..]);
    }
  }

  lemma {:induction false} BlockReported(name: string, es: seq<Error>, e: Error)
    ensures e in Block(name, es) <==>
              es != [] && (e == Error(name, NestedFailed(name, |es|)) ||
                           exists x :: x in es && e == Error(name + "." + x.field, x.cause))
  {
    if es != [] {
      var p := Prefixed(name, es);
      PrefixedAt(name, es);
      hide Prefixed;
      if e in p {
        var i :| 0 <= i < |p| && p[i] == e;
        assert es[i] in es;
      }
      if x :| x in es && e == Error(name + "." + x.field, x.cause) {
        var i :| 0 <= i < |es| && es[i] == x;
        assert p[i] == e;
      }
    }
  }

  lemma {:induction false} JoinOne(name: string)
    ensures Join([name]) == name
  {
  }

  lemma {:induction false} JoinMore(name: string, path: seq<string>)
    requires path != []
    ensures ([name] + path)[1..] == path && Join([name] + path) == name + "." + Join(path)
  {
    assert ([name] + path)[1..] == path;
  }

  // Violations of a field at the field itself.
  ghost predicate OwnViolation(f: FieldDef, us: seq<Value>, at: Contents, c: Cause) {
    FieldViolates(f, us, at, [f.name], c)
  }

  lemma {:induction false} PathOfOne(f: FieldDef, us: seq<Value>, at: Contents, path: seq<string>, c: Cause)
    requires |path| == 1
    ensures FieldViolates(f, us, at, path, c) <==> path == [f.name] && OwnViolation(f, us, at, c)
  {
    assert path == [path[0]];
  }

  // A field is violated at a path of one, or inside its nested container.
  lemma {:induction false} FieldSplit(f: FieldDef, us: seq<Value>, at: Contents, e: Error)
    ensures FieldViolatesAt(f, us, at, e) <==>
              (e.field == f.name && OwnViolation(f, us, at, e.cause)) ||
              (exists x: Error :: Inner(f, us, at, x) && e == Error(f.name + "." + x.field, x.cause))
  {
    hide Join;
    if FieldViolatesAt(f, us, at, e) {
      var path :| path != [] && Join(path) == e.field && FieldViolates(f, us, at, path, e.cause);
      if |path| == 1 {
        PathOfOne(f, us, at, path, e.cause);
        JoinOne(f.name);
      } else {
        var rest := path[1..];
        assert path == [f.name] + rest;
        JoinMore(f.name, rest);
        var x := Error(Join(rest), e.cause);
        InnerPath(f, us, at, rest, e.cause);
        assert Inner(f, us, at, x);
      }
    }
    if e.field == f.name && OwnViolation(f, us, at, e.cause) {
      JoinOne(f.name);
      assert FieldViolatesAt(f, us, at, e);
    }
    if x: Error :| Inner(f, us, at, x) && e == Error(f.name + "." + x.field, x.cause) {
      var rest :| rest != [] && Join(rest) == x.field && Violates(f.nested.fields, at(BoxOf(Find(us, f.name).value).value), at, rest, x.cause);
      JoinMore(f.name, rest);
      InnerPath(f, us, at, rest, e.cause);
      assert FieldViolates(f, us, at, [f.name] + rest, e.cause);
    }
  }

  // The container a field's nested schema is checked against, if any.
  predicate HasInner(f: FieldDef, us: seq<Value>) {
    var v := Find(us, f.name);
    f.nested.Sub? && v.Some? && v.value.kind == Container && BoxOf(v.value).Some?
  }

  ghost predicate Inner(f: FieldDef, us: seq<Value>, at: Contents, x: Error) {
    HasInner(f, us) && ViolatesAt(f.nested.fields, at(BoxOf(Find(us, f.name).value).value), at, x)
  }

  lemma {:induction false} InnerPath(f: FieldDef, us: seq<Value>, at: Contents, rest: seq<string>, c: Cause)
    requires rest != []
    ensures FieldViolates(f, us, at, [f.name] + rest, c) <==>
              HasInner(f, us) && Violates(f.nested.fields, at(BoxOf(Find(us, f.name).value).value), at, rest, c)
  {
    assert ([f.name] + rest)[1..] == rest;
  }

  lemma {:induction false} FieldReported(f: FieldDef, us: seq<Value>, at: Contents, e: Error)
    ensures e in FieldErrors(f, us, at) <==> FieldViolatesAt(f, us, at, e)
    decreases f, 0
  {
    hide RuleErrors, BreaksRule, FieldViolatesAt, Block, Errors, Satisfies, Violates, Join, ViolatesAt;
    FieldSplit(f, us, at, e);
    match Find(us, f.name)
    case None =>
    case Some(v) =>
      RulesReported(f, v, e);
      if HasInner(f, us) {
        var fs, inner := f.nested.fields, at(BoxOf(v).value);
        NoErrors(fs, inner, at);
        BlockReported(f.name, Errors(fs, inner, at), e);
        forall x: Error ensures x in Errors(fs, inner, at) <==> Inner(f, us, at, x) {
          Reported(fs, inner, at, x);
        }
      }
  }

  // An error is in the list exactly when the field it names, along its path,
  // is violated for the cause it gives.
  lemma {:induction false} Reported(fs: seq<FieldDef>, us: seq<Value>, at: Contents, e: Error)
    ensures e in Errors(fs, us, at) <==> ViolatesAt(fs, us, at, e)
    decreases fs, 1
  {
    if fs == [] {
      assert !ViolatesAt(fs, us, at, e);
    } else {
      hide FieldErrors, FieldViolates, Join;
      assert fs decreases to fs[0];
      FieldReported(fs[0], us, at, e);
      Reported(fs[1..], us, at, e);
      FirstViolates(fs, us, at, e);
    }
  }

  lemma {:induction false} FirstViolates(fs: seq<FieldDef>, us: seq<Value>, at: Contents, e: Error)
    requires fs != []
    ensures ViolatesAt(fs, us, at, e) <==> FieldViolatesAt(fs[0], us, at, e) || ViolatesAt(fs[1..], us, at, e)
  {
    hide FieldViolates, Join;
    var tail := fs[1..];
    assert forall i :: 0 <= i < |tail| ==> tail[i] == fs[i + 1];
    if ViolatesAt(fs, us, at, e) {
      var path :| path != [] && Join(path) == e.field && Violates(fs, us, at, path, e.cause);
      var i :| 0 <= i < |fs| && FieldViolates(fs[i], us, at, path, e.cause);
      if i > 0 {
        assert FieldViolates(tail[i - 1], us, at, path, e.cause);
      }
    }
    if ViolatesAt(tail, us, at, e) {
      var path :| path != [] && Join(path) == e.field && Violates(tail, us, at, path, e.cause);
      var i :| 0 <= i < |tail| && FieldViolates(tail[i], us, at, path, e.cause);
      assert FieldViolates(fs[i + 1], us, at, path, e.cause);
    }
  }

  // ---- The order of the list ----

  lemma {:induction false} ErrorsConcat(fs: seq<FieldDef>, gs: seq<FieldDef>, us: seq<Value>, at: Contents)
    ensures Errors(fs + gs, us, at) == Errors(fs, us, at) + Errors(gs, us, at)
    decreases |fs|
  {
    if fs == [] {
      assert fs + gs == gs;
    } else {
      hide FieldErrors;
      assert (fs + gs)[1..] == fs[1..] + gs;
      ErrorsConcat(fs[1..], gs, us, at);
    }
  }

  // A failing nested container stands in the list as one block, after the
  // errors of the fields before it and of its own rules: a summary with the
  // number of nested errors, then those errors in their order, each with the
  // field's name in front of its path.
  lemma {:induction false} NestedBlock(fs: seq<FieldDef>, k: nat, us: seq<Value>, at: Contents)
    requires k < |fs| && HasInner(fs[k], us)
    requires !Satisfies(fs[k].nested.fields, at(BoxOf(Find(us, fs[k].name).value).value), at)
    ensures var f, v := fs[k], Find(us, fs[k].name).value;
            var inner, es := Errors(f.nested.fields, at(BoxOf(v).value), at), Errors(fs, us, at);
            var from := |Errors(fs[..k], us, at)| + |RuleErrors(f, v)|;
            |es| == from + 1 + |inner| + |Errors(fs[k + 1..], us, at)| &&
            es[from] == Error(f.name, NestedFailed(f.name, |inner|)) && inner != [] &&
            forall i :: 0 <= i < |inner| ==> es[from + 1 + i] == Error(f.name + "." + inner[i].field, inner[i].cause)
  {
    hide Errors, RuleErrors, Satisfies, Prefixed, Block;
    var f, v := fs[k], Find(us, fs[k].name).value;
    var inner := Errors(f.nested.fields, at(BoxOf(v).value), at);
    NoErrors(f.nested.fields, at(BoxOf(v).value), at);
    assert fs == fs[..k] + ([f] + fs[k + 1..]);
    ErrorsConcat(fs[..k], [f] + fs[k + 1..], us, at);
    ErrorsConcat([f], fs[k + 1..], us, at);
    OneField(f, us, at);
    BlockInList(f.name, inner, Errors(fs[..k], us, at), RuleErrors(f, v), Errors(fs[k + 1..], us, at));
  }

  lemma {:induction false} BlockInList(name: string, inner: seq<Error>, before: seq<Error>, own: seq<Error>, after: seq<Error>)
    requires inner != []
    ensures var es, from := before + (own + Block(name, inner) + after), |before| + |own|;
            |es| == from + 1 + |inner| + |after| && es[from] == Error(name, NestedFailed(name, |inner|)) &&
            forall i :: 0 <= i < |inner| ==> es[from + 1 + i] == Error(name + "." + inner[i].field, inner[i].cause)
  {
    hide *;
    BlockAt(name, inner);
    var block := Block(name, inner);
    Middle(before, own, block, after, 0);
    forall i | 0 <= i < |inner|
      ensures (before + (own + block + after))[|before| + |own| + 1 + i] == Error(name + "." + inner[i].field, inner[i].cause)
    {
      Middle(before, own, block, after, 1 + i);
    }
  }

  lemma {:induction false} BlockAt(name: string, es: seq<Error>)
    requires es != []
    ensures |Block(name, es)| == 1 + |es| && Block(name, es)[0] == Error(name, NestedFailed(name, |es|))
    ensures forall i :: 0 <= i < |es| ==> Block(name, es)[1 + i] == Error(name + "." + es[i].field, es[i].cause)
  {
    hide Prefixed;
    PrefixedAt(name, es);
  }

  lemma {:induction false} Middle(a: seq<Error>, b: seq<Error>, c: seq<Error>, d: seq<Error>, j: nat)
    requires j < |c|
    ensures |a + (b + c + d)| == |a| + |b| + |c| + |d| && (a + (b + c + d))[|a| + |b| + j] == c[j]
  {
    assert (b + c + d)[|b| + j] == c[j];
  }

  lemma {:induction false} OneField(f: FieldDef, us: seq<Value>, at: Contents)
    ensures Errors([f], us, at) == FieldErrors(f, us, at)
  {
    hide FieldErrors;
    assert [f][1..] == [];
    assert Errors([f], us, at) == FieldErrors(f, us, at) + [];
  }

  // ---- The reinterpretation of unsigned values ----

  // For a value of a 64-bit unsigned type the integer range is the range of
  // the number itself exactly when the number is below 2^63 or its signed
  // reading is outside the range.
  lemma {:induction false} UnsignedRange(f: FieldDef, v: Value, lo: int, hi: int)
    requires v.kind in {ULong, ULLong} && v.data.Number? && v.data.kind == v.kind && 0 <= v.data.n < TWO64
    requires f.minInt == Some(lo) && f.maxInt == Some(hi) && -TWO63 <= lo && hi < TWO63
    ensures (RangeCause(f, v) == None <==> lo <= v.data.n <= hi) <==> v.data.n < TWO63 || !(lo <= v.data.n - TWO64 <= hi)
  {
  }

  // The integer range is the range of the number itself for every value of a
  // 64-bit unsigned type exactly when it does not start below zero, or is
  // empty.
  lemma {:induction false} UnsignedRangeAlways(f: FieldDef, kind: Kind, lo: int, hi: int)
    requires kind in {ULong, ULLong} && f.minInt == Some(lo) && f.maxInt == Some(hi)
    requires -TWO63 <= lo < TWO63 && -TWO63 <= hi < TWO63
    ensures (forall n: nat :: n < TWO64 ==> (RangeCause(f, Unsigned(f, kind, n)) == None <==> lo <= n <= hi))
              <==> 0 <= lo || hi < lo
  {
    if lo < 0 && lo <= hi {
      UnsignedRange(f, Unsigned(f, kind, lo + TWO64), lo, hi);
    } else {
      forall n: nat | n < TWO64 ensures RangeCause(f, Unsigned(f, kind, n)) == None <==> lo <= n <= hi {
        UnsignedRange(f, Unsigned(f, kind, n), lo, hi);
      }
    }
  }

  function Unsigned(f: FieldDef, kind: Kind, n: nat): Value {
    Value(f.name, kind, Number(kind, n))
  }

  // A range that starts below zero takes the largest unsigned value.
  lemma {:induction false} LargestUnsignedPasses(at: Contents)
    ensures var f := Plain("n", ULLong, true, NoSchema).(minInt := Some(-10), maxInt := Some(10));
            Errors([f], [Value("n", ULLong, Number(ULLong, 0xFFFF_FFFF_FFFF_FFFF))], at) == []
  {
    var f := Plain("n", ULLong, true, NoSchema).(minInt := Some(-10), maxInt := Some(10));
    OneField(f, [Value("n", ULLong, Number(ULLong, TWO64 - 1))], at);
  }

  // ---- What a builder call does to the meaning of a schema ----

  // Where find_field finds the name, or the number of fields.
  function FieldAt(fs: seq<FieldDef>, key: string): (k: nat)
    ensures k <= |fs| && (k < |fs| ==> fs[k].name == key) && forall i :: 0 <= i < k ==> fs[i].name != key
  {
    if fs == [] then 0 else if fs[0].name == key then 0 else 1 + FieldAt(fs[1..], key)
  }

  // Putting g in the place of one field asks for g and for all the others.
  lemma {:induction false} Replaced(fs: seq<FieldDef>, k: nat, g: FieldDef, us: seq<Value>, at: Contents)
    requires k < |fs|
    ensures Satisfies(fs[k := g], us, at) <==>
              FieldHolds(g, us, at) && forall i :: 0 <= i < |fs| && i != k ==> FieldHolds(fs[i], us, at)
  {
    hide FieldHolds;
    var gs := fs[k := g];
    if FieldHolds(g, us, at) && forall i :: 0 <= i < |fs| && i != k ==> FieldHolds(fs[i], us, at) {
      forall i | 0 <= i < |gs| ensures FieldHolds(gs[i], us, at) {
        assert i != k ==> gs[i] == fs[i];
      }
    }
    if Satisfies(gs, us, at) {
      assert gs[k] == g;
      forall i | 0 <= i < |fs| && i != k ensures FieldHolds(fs[i], us, at) {
        assert gs[i] == fs[i];
      }
    }
  }

  // A pattern that is not a regular expression asks for nothing: it finds no
  // error in any value, and takes the place of the pattern there was.
  lemma {:induction false} InvalidPatternIgnored(fs: seq<FieldDef>, key: string, text: string, us: seq<Value>, at: Contents)
    requires FieldAt(fs, key) < |fs|
    ensures var k := FieldAt(fs, key); var f := fs[k].(pattern := text, compiled := None);
            (forall v :: PatternCause(f, v) == None) &&
            (Satisfies(fs[k := f], us, at) <==> Satisfies(fs[k := fs[k].(compiled := None)], us, at)) &&
            (fs[k].compiled == None ==> (Satisfies(fs[k := f], us, at) <==> Satisfies(fs, us, at)))
  {
    hide Satisfies;
    var k := FieldAt(fs, key);
    var f, g := fs[k].(pattern := text, compiled := None), fs[k].(compiled := None);
    Replaced(fs, k, f, us, at);
    Replaced(fs, k, g, us, at);
    Replaced(fs, k, fs[k], us, at);
    assert fs[k := fs[k]] == fs;
  }

  // A validator more is one condition more on a value that is there.
  lemma {:induction false} CustomAdds(fs: seq<FieldDef>, key: string, check: Value -> Verdict, us: seq<Value>, at: Contents)
    requires FieldAt(fs, key) < |fs|
    ensures var k := FieldAt(fs, key); var v := Find(us, key);
            Satisfies(fs[k := fs[k].(custom := fs[k].custom + [check])], us, at) <==>
              Satisfies(fs, us, at) && (v.Some? ==> check(v.value) == Passed)
  {
    hide Satisfies;
    var k := FieldAt(fs, key);
    var f := fs[k];
    var g := f.(custom := f.custom + [check]);
    Replaced(fs, k, g, us, at);
    Replaced(fs, k, f, us, at);
    assert fs[k := f] == fs;
    if Find(us, key).Some? {
      OneMore(f, check, Find(us, key).value);
    }
  }

  lemma {:induction false} OneMore(f: FieldDef, check: Value -> Verdict, v: Value)
    ensures RulesHold(f.(custom := f.custom + [check]), v) <==> RulesHold(f, v) && check(v) == Passed
  {
    var cs := f.custom + [check];
    assert forall i :: 0 <= i < |f.custom| ==> cs[i] == f.custom[i];
    assert cs[|f.custom|] == check;
  }

  // A range set on a field that had none is one condition more too, on the
  // numbers it looks at.
  lemma {:induction false} RangeAdds(fs: seq<FieldDef>, key: string, lo: int, hi: int, us: seq<Value>, at: Contents)
    requires FieldAt(fs, key) < |fs|
    requires fs[FieldAt(fs, key)].minInt == None
    ensures var k := FieldAt(fs, key); var v := Find(us, key);
            Satisfies(fs[k := fs[k].(minInt := Some(lo), maxInt := Some(hi))], us, at) <==>
              Satisfies(fs, us, at) && (v.Some? ==> forall x :: HoldsWhole(v.value, x) ==> lo <= x <= hi)
  {
    hide Satisfies, HoldsWhole;
    var k := FieldAt(fs, key);
    var f := fs[k];
    Replaced(fs, k, f.(minInt := Some(lo), maxInt := Some(hi)), us, at);
    Replaced(fs, k, f, us, at);
    assert fs[k := f] == fs;
  }
}
