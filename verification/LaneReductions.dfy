// Sums, minima and maxima of floats by vector lanes, against the plain loop.
// Numbers are exact; rounding and NaN are not modelled.
module LaneReductions {
  import opened Outcomes

  datatype Policy = Scalar | Sse | Avx2 | Avx512 | Neon

  // Floats to a vector.
  function Width(p: Policy): nat {
    match p
    case Scalar => 1
    case Sse => 4
    case Neon => 4
    case Avx2 => 8
    case Avx512 => 16
  }

  // ---- Sums ----

  // What the plain loop adds up.
  function Total(s: seq<real>): real {
    if s == [] then 0.0 else Total(s[..|s| - 1]) + s[|s| - 1]
  }

  // Totals add up, and the total of one number is the number.
  lemma {:induction false} TotalIs(a: seq<real>, b: seq<real>, x: real)
    ensures Total([]) == 0.0 && Total([x]) == x && Total(a + b) == Total(a) + Total(b)
  {
    assert [x][..0] == [];
    TotalConcat(a, b);
  }

  // Lane by lane.
  function VecAdd(a: seq<real>, b: seq<real>): (r: seq<real>)
    requires |a| == |b|
    ensures |r| == |a|
  {
    if a == [] then [] else VecAdd(a[..|a| - 1], b[..|b| - 1]) + [a[|a| - 1] + b[|b| - 1]]
  }

  // Neighbouring lanes added, of one operand and then of the other.
  function Hadd(a: seq<real>, b: seq<real>): (r: seq<real>)
    requires |a| == |b| == 4
    ensures |r| == 4
  {
    [a[0] + a[1], a[2] + a[3], b[0] + b[1], b[2] + b[3]]
  }

  // The reduction of the AVX-512 header: the halves are added until one lane
  // is left.
  function Halving(v: seq<real>): real
    requires |v| in {1, 2, 4, 8, 16}
    decreases |v|
  {
    if |v| == 1 then v[0] else Halving(VecAdd(v[..|v| / 2], v[|v| / 2..]))
  }

  // The sum of the lanes, in the order each policy adds them.
  function Horizontal(p: Policy, v: seq<real>): real
    requires p != Scalar && (|v| == Width(p) || (p == Avx512 && |v| == 8))
  {
    match p
    case Sse => Hadd(Hadd(v, v), Hadd(v, v))[0]
    case Avx2 => var low := VecAdd(v[..4], v[4..]); Hadd(Hadd(low, low), Hadd(low, low))[0]
    case Neon => var pair := VecAdd(v[..2], v[2..]); pair[0] + pair[1]
    case Avx512 => Halving(v)
  }

  lemma {:induction false} TotalConcat(a: seq<real>, b: seq<real>)
    ensures Total(a + b) == Total(a) + Total(b)
  {
    if b == [] {
      assert a + b == a;
    } else {
      var n := |b| - 1;
      assert (a + b)[..|a| + n] == a + b[..n];
      TotalConcat(a, b[..n]);
    }
  }

  lemma {:induction false} TotalVecAdd(a: seq<real>, b: seq<real>)
    requires |a| == |b|
    ensures Total(VecAdd(a, b)) == Total(a) + Total(b)
  {
    if a != [] {
      var n := |a| - 1;
      assert VecAdd(a, b)[..n] == VecAdd(a[..n], b[..n]);
      TotalVecAdd(a[..n], b[..n]);
    }
  }

  lemma {:induction false} TotalHalves(v: seq<real>, k: nat)
    requires |v| == 2 * k
    ensures Total(VecAdd(v[..k], v[k..])) == Total(v)
  {
    TotalVecAdd(v[..k], v[k..]);
    TotalConcat(v[..k], v[k..]);
    assert v == v[..k] + v[k..];
  }

  lemma {:induction false} HalvingTotal(v: seq<real>)
    requires |v| in {1, 2, 4, 8, 16}
    ensures Halving(v) == Total(v)
    decreases |v|
  {
    if |v| == 1 {
      assert Total(v[..0]) == 0.0;
    } else {
      TotalHalves(v, |v| / 2);
      HalvingTotal(VecAdd(v[..|v| / 2], v[|v| / 2..]));
    }
  }

  lemma {:induction false} TotalTwo(v: seq<real>)
    requires |v| == 2
    ensures Total(v) == v[0] + v[1]
  {
    assert v[..1][..0] == [];
    assert Total(v[..1]) == Total(v[..1][..0]) + v[..1][0];
  }

  lemma {:induction false} TotalFour(v: seq<real>)
    requires |v| == 4
    ensures Total(v) == v[0] + v[1] + v[2] + v[3]
  {
    TotalTwo(v[..2]);
    TotalTwo(v[2..]);
    TotalConcat(v[..2], v[2..]);
    assert v == v[..2] + v[2..];
  }

  // Whatever the order, the lanes add up to their total.
  lemma {:induction false} HorizontalTotal(p: Policy, v: seq<real>)
    requires p != Scalar && (|v| == Width(p) || (p == Avx512 && |v| == 8))
    ensures Horizontal(p, v) == Total(v)
  {
    hide Total, Halving, VecAdd;
    match p
    case Sse => TotalFour(v);
    case Avx2 =>
      TotalHalves(v, 4);
      TotalFour(VecAdd(v[..4], v[4..]));
    case Neon =>
      TotalHalves(v, 2);
      TotalTwo(VecAdd(v[..2], v[2..]));
    case Avx512 => HalvingTotal(v);
  }

  function Zeros(n: nat): (r: seq<real>)
    ensures |r| == n
  {
    if n == 0 then [] else Zeros(n - 1) + [0.0]
  }

  lemma {:induction false} TotalZeros(n: nat)
    ensures Total(Zeros(n)) == 0.0
  {
    if n > 0 {
      TotalZeros(n - 1);
      assert Zeros(n)[..n - 1] == Zeros(n - 1);
    }
  }

  method ScalarSum(data: seq<real>, from: nat, start: real) returns (sum: real)
    requires from <= |data|
    ensures sum == start + Total(data[from..])
  {
    sum := start;
    for i := from to |data|
      invariant sum == start + Total(data[from..i])
    {
      assert data[from..i + 1][..i - from] == data[from..i];
      sum := sum + data[i];
    }
    assert data[from..|data|] == data[from..];
  }

  // The vector loop over whole groups of w, the lanes added up, and the
  // plain loop over the rest.
  method LaneSum(p: Policy, w: nat, data: seq<real>) returns (sum: real)
    requires p != Scalar && (w == Width(p) || (p == Avx512 && w == 8))
    ensures sum == Total(data)
  {
    hide Total, VecAdd, Horizontal, Zeros, Covered, Multiple;
    var vec := Zeros(w);
    TotalZeros(w);
    var end := Covered(|data|, w);
    CoveredBy(|data|, w);
    var i := 0;
    NoTotal();
    while i < end
      invariant i <= end && Multiple(end - i, w) && |vec| == w && Total(vec) == Total(data[..i])
      decreases end - i
    {
      NextGroup(end - i, w);
      TotalVecAdd(vec, data[i..i + w]);
      TotalConcat(data[..i], data[i..i + w]);
      assert data[..i + w] == data[..i] + data[i..i + w];
      vec := VecAdd(vec, data[i..i + w]);
      i := i + w;
    }
    HorizontalTotal(p, vec);
    sum := Horizontal(p, vec);
    sum := ScalarSum(data, end, sum);
    TotalConcat(data[..end], data[end..]);
    assert data == data[..end] + data[end..];
  }

  lemma {:induction false} NoTotal()
    ensures Total([]) == 0.0
  {
  }

  // The part of a list that vectors of w cover.
  function Covered(n: nat, w: nat): nat
    requires w in {4, 8, 16}
  {
    if w == 4 then n - n % 4 else if w == 8 then n - n % 8 else n - n % 16
  }

  predicate Multiple(n: int, w: nat)
    requires w in {4, 8, 16}
  {
    if w == 4 then n % 4 == 0 else if w == 8 then n % 8 == 0 else n % 16 == 0
  }

  // A positive multiple of w has room for a group of w.
  lemma {:induction false} NextGroup(n: int, w: nat)
    requires w in {4, 8, 16} && n > 0 && Multiple(n, w)
    ensures n >= w && Multiple(n - w, w)
  {
  }

  lemma {:induction false} CoveredBy(n: nat, w: nat)
    requires w in {4, 8, 16}
    ensures Covered(n, w) <= n && Multiple(Covered(n, w), w)
  {
  }

  method SumFloats(p: Policy, data: seq<real>) returns (sum: real)
    ensures sum == Total(data)
  {
    if p == Scalar {
      sum := ScalarSum(data, 0, 0.0);
      assert data[0..] == data;
    } else {
      sum := LaneSum(p, Width(p), data);
    }
  }

  // Only AVX-512 adds doubles by lanes, eight to a vector.
  method SumDoubles(p: Policy, data: seq<real>) returns (sum: real)
    ensures sum == Total(data)
  {
    if p == Avx512 {
      sum := LaneSum(p, 8, data);
    } else {
      sum := ScalarSum(data, 0, 0.0);
      assert data[0..] == data;
    }
  }

  // ---- Minima and maxima ----

  datatype Goal = Least | Greatest

  predicate Better(g: Goal, a: real, b: real) {
    if g == Least then a < b else a > b
  }

  // The largest finite float, 2^128 - 2^104.
  const FLT_MAX: real := 340282346638528859811704183484516925440.0

  // numeric_limits<float>::max() and lowest(): what an empty list gives, and
  // where the lanes start.
  function Sentinel(g: Goal): real {
    if g == Least then FLT_MAX else -FLT_MAX
  }

  function Pick(g: Goal, a: real, b: real): real {
    if Better(g, a, b) then a else b
  }

  // The loop that keeps the better of what it has and the next.
  function Fold(g: Goal, start: real, s: seq<real>): real {
    if s == [] then start else Pick(g, s[|s| - 1], Fold(g, start, s[..|s| - 1]))
  }

  predicate AsGood(g: Goal, a: real, b: real) {
    match g case Least => a <= b case Greatest => a >= b
  }

  // m is in s and nothing in s is better.
  ghost predicate IsBest(g: Goal, m: real, s: seq<real>) {
    m in s && forall x :: x in s ==> AsGood(g, m, x)
  }

  // The sentinels are the finite limits of a float, 2^128 - 2^104 and its
  // negative.
  lemma {:induction false} SentinelIs(g: Goal)
    ensures var limit := (0x1_0000_0000_0000_0000_0000_0000_0000_0000 - 0x100_0000_0000_0000_0000_0000_0000) as real;
            Sentinel(g) == match g case Least => limit case Greatest => -limit
  {
  }

  lemma {:induction false} FoldIsBest(g: Goal, start: real, s: seq<real>)
    ensures IsBest(g, Fold(g, start, s), [start] + s)
  {
    if s != [] {
      hide Fold;
      var n := |s| - 1;
      FoldIsBest(g, start, s[..n]);
      FoldStep(g, start, s);
      assert [start] + s == [start] + s[..n] + [s[n]];
    }
  }

  lemma {:induction false} FoldStep(g: Goal, start: real, s: seq<real>)
    requires s != []
    ensures Fold(g, start, s) == Pick(g, s[|s| - 1], Fold(g, start, s[..|s| - 1]))
  {
  }

  function VecPick(g: Goal, a: seq<real>, b: seq<real>): (r: seq<real>)
    requires |a| == |b|
    ensures |r| == |a|
  {
    if a == [] then [] else VecPick(g, a[..|a| - 1], b[..|b| - 1]) + [Pick(g, a[|a| - 1], b[|b| - 1])]
  }

  function Fill(n: nat, x: real): (r: seq<real>)
    ensures |r| == n
  {
    if n == 0 then [] else Fill(n - 1, x) + [x]
  }

  function HalvingPick(g: Goal, v: seq<real>): real
    requires |v| in {1, 2, 4, 8, 16}
    decreases |v|
  {
    if |v| == 1 then v[0] else HalvingPick(g, VecPick(g, v[..|v| / 2], v[|v| / 2..]))
  }

  lemma {:induction false} PickAssoc(g: Goal, a: real, b: real, c: real)
    ensures Pick(g, a, Pick(g, b, c)) == Pick(g, Pick(g, a, b), c)
    ensures Pick(g, a, b) == Pick(g, b, a) && Pick(g, a, a) == a
  {
  }

  lemma {:induction false} FoldConcat(g: Goal, start: real, a: seq<real>, b: seq<real>)
    ensures Fold(g, start, a + b) == Fold(g, Fold(g, start, a), b)
  {
    if b == [] {
      assert a + b == a;
    } else {
      var n := |b| - 1;
      assert (a + b)[..|a| + n] == a + b[..n];
      FoldConcat(g, start, a, b[..n]);
    }
  }

  lemma {:induction false} FoldStart(g: Goal, x: real, start: real, s: seq<real>)
    ensures Fold(g, Pick(g, x, start), s) == Pick(g, x, Fold(g, start, s))
  {
    if s != [] {
      var n := |s| - 1;
      FoldStart(g, x, start, s[..n]);
      var rest := Fold(g, start, s[..n]);
      PickAssoc(g, s[n], x, rest);
      PickAssoc(g, x, s[n], rest);
    }
  }

  lemma {:induction false} FoldFill(g: Goal, n: nat, x: real)
    ensures Fold(g, x, Fill(n, x)) == x
  {
    if n > 0 {
      FoldFill(g, n - 1, x);
      assert Fill(n, x)[..n - 1] == Fill(n - 1, x);
    }
  }

  // The better lanes of two vectors stand for all lanes of both.
  lemma {:induction false} FoldVecPick(g: Goal, start: real, a: seq<real>, b: seq<real>)
    requires |a| == |b|
    ensures Fold(g, start, VecPick(g, a, b)) == Fold(g, start, a + b)
  {
    if a == [] {
      assert a + b == [];
    } else {
      hide Pick;
      var n := |a| - 1;
      var x, y, r := a[n], b[n], VecPick(g, a, b);
      assert r[..n] == VecPick(g, a[..n], b[..n]);
      FoldVecPick(g, start, a[..n], b[..n]);
      FoldConcat(g, start, a[..n], b[..n]);
      FoldConcat(g, start, a, b);
      FoldStart(g, x, Fold(g, start, a[..n]), b[..n]);
      var t := Fold(g, Fold(g, start, a[..n]), b[..n]);
      assert Fold(g, start, a + b) == Pick(g, y, Pick(g, x, t));
      assert Fold(g, start, r) == Pick(g, Pick(g, x, y), t);
      PickAssoc(g, x, y, t);
      PickAssoc(g, y, x, t);
    }
  }

  // The reduction by halves is the plain loop from any start that the lanes
  // are no worse than.
  lemma {:induction false} HalvingBest(g: Goal, start: real, v: seq<real>)
    requires |v| in {1, 2, 4, 8, 16}
    ensures Pick(g, start, HalvingPick(g, v)) == Fold(g, start, v)
    decreases |v|
  {
    if |v| == 1 {
      assert Fold(g, start, v[..0]) == start;
      PickAssoc(g, start, v[0], start);
    } else {
      hide Pick, Fold;
      var low, high := v[..|v| / 2], v[|v| / 2..];
      HalvingBest(g, start, VecPick(g, low, high));
      FoldVecPick(g, start, low, high);
      assert v == low + high;
    }
  }

  method ScalarBest(g: Goal, data: seq<real>) returns (best: real)
    ensures data == [] ==> best == Sentinel(g)
    ensures data != [] ==> best == Fold(g, data[0], data[1..]) && IsBest(g, best, data)
  {
    if data == [] {
      return Sentinel(g);
    }
    best := FoldFrom(g, data, 1, data[0]);
    FoldIsBest(g, data[0], data[1..]);
    assert [data[0]] + data[1..] == data;
  }

  // The loop from one place on.
  method FoldFrom(g: Goal, data: seq<real>, from: nat, start: real) returns (best: real)
    requires from <= |data|
    ensures best == Fold(g, start, data[from..])
  {
    best := start;
    for i := from to |data|
      invariant best == Fold(g, start, data[from..i])
    {
      assert data[from..i + 1][..i - from] == data[from..i];
      if Better(g, data[i], best) {
        best := data[i];
      }
    }
    assert data[from..|data|] == data[from..];
  }

  // No lane is worse than x.
  ghost predicate NoWorse(g: Goal, x: real, v: seq<real>) {
    forall j :: 0 <= j < |v| ==> !Better(g, x, v[j])
  }

  lemma {:induction false} FillNoWorse(g: Goal, n: nat, x: real)
    ensures NoWorse(g, x, Fill(n, x))
  {
    if n > 0 { FillNoWorse(g, n - 1, x); }
  }

  lemma {:induction false} VecPickNoWorse(g: Goal, x: real, a: seq<real>, b: seq<real>)
    requires |a| == |b| && NoWorse(g, x, a)
    ensures NoWorse(g, x, VecPick(g, a, b))
  {
    if a != [] {
      var n := |a| - 1;
      VecPickNoWorse(g, x, a[..n], b[..n]);
    }
  }

  lemma {:induction false} HalvingNoWorse(g: Goal, x: real, v: seq<real>)
    requires |v| in {1, 2, 4, 8, 16} && NoWorse(g, x, v)
    ensures !Better(g, x, HalvingPick(g, v))
    decreases |v|
  {
    if |v| > 1 {
      var low, high := v[..|v| / 2], v[|v| / 2..];
      VecPickNoWorse(g, x, low, high);
      HalvingNoWorse(g, x, VecPick(g, low, high));
    }
  }

  // The best of the lanes.
  method BestLane(p: Policy, g: Goal, vec: seq<real>) returns (best: real)
    requires p != Scalar && |vec| == Width(p) && NoWorse(g, Sentinel(g), vec)
    ensures best == Fold(g, Sentinel(g), vec)
  {
    hide Fold, VecPick, HalvingPick;
    ghost var s := Sentinel(g);
    if p == Avx512 {
      best := HalvingPick(g, vec);
      HalvingBest(g, s, vec);
      HalvingNoWorse(g, s, vec);
    } else {
      best := FoldFrom(g, vec, 1, vec[0]);
      FoldConcat(g, s, [vec[0]], vec[1..]);
      FoldOne(g, s, vec[0]);
      assert vec == [vec[0]] + vec[1..];
    }
  }

  lemma {:induction false} FoldOne(g: Goal, start: real, x: real)
    ensures Fold(g, start, [x]) == Pick(g, x, start)
  {
    assert Fold(g, start, [x][..0]) == start;
  }

  // The lanes start at the sentinel, and are compared one after the other or
  // by halves; then comes the plain loop over the rest.
  method LaneBest(p: Policy, g: Goal, data: seq<real>) returns (best: real)
    requires p != Scalar
    ensures best == Fold(g, Sentinel(g), data)
  {
    hide Fold, VecPick, HalvingPick, Fill, Covered, Multiple, Pick;
    if data == [] {
      FoldNone(g, Sentinel(g));
      return Sentinel(g);
    }
    ghost var s := Sentinel(g);
    var w := Width(p);
    var vec := Fill(w, Sentinel(g));
    FoldFill(g, w, s);
    FillNoWorse(g, w, s);
    var end := Covered(|data|, w);
    CoveredBy(|data|, w);
    var i := 0;
    FoldNone(g, s);
    while i < end
      invariant i <= end && Multiple(end - i, w) && |vec| == w && NoWorse(g, s, vec)
      invariant Fold(g, s, vec) == Fold(g, s, data[..i])
      decreases end - i
    {
      NextGroup(end - i, w);
      ghost var group := data[i..i + w];
      FoldVecPick(g, s, vec, group);
      FoldConcat(g, s, vec, group);
      FoldConcat(g, s, data[..i], group);
      assert data[..i + w] == data[..i] + group;
      VecPickNoWorse(g, s, vec, group);
      vec := VecPick(g, vec, data[i..i + w]);
      i := i + w;
    }
    best := BestLane(p, g, vec);
    best := FoldFrom(g, data, end, best);
    FoldConcat(g, s, data[..end], data[end..]);
    assert data == data[..end] + data[end..];
  }

  lemma {:induction false} FoldNone(g: Goal, start: real)
    ensures Fold(g, start, []) == start
  {
  }

  method BestFloat(p: Policy, g: Goal, data: seq<real>) returns (best: real)
    ensures p == Scalar && data != [] ==> best == Fold(g, data[0], data[1..])
    ensures p != Scalar || data == [] ==> best == Fold(g, Sentinel(g), data)
  {
    if p == Scalar {
      best := ScalarBest(g, data);
      FoldNone(g, Sentinel(g));
    } else {
      best := LaneBest(p, g, data);
    }
  }

  // The lanes and the plain loop agree exactly when some element is no worse
  // than the sentinel; otherwise the lanes give the sentinel.
  lemma {:induction false} LanesAgainstLoop(g: Goal, data: seq<real>)
    requires data != []
    ensures var loop, lanes := Fold(g, data[0], data[1..]), Fold(g, Sentinel(g), data);
            IsBest(g, loop, data) &&
            (lanes == loop <==> exists x :: x in data && AsGood(g, x, Sentinel(g))) &&
            lanes == if AsGood(g, loop, Sentinel(g)) then loop else Sentinel(g)
  {
    hide Fold;
    var s, x, rest := Sentinel(g), data[0], data[1..];
    assert data == [x] + rest;
    FoldIsBest(g, x, rest);
    FoldConcat(g, s, [x], rest);
    FoldOne(g, s, x);
    PickAssoc(g, s, x, x);
    FoldStart(g, s, x, rest);
    var loop := Fold(g, x, rest);
    assert loop in data;
    if y :| y in data && AsGood(g, y, s) {
      assert AsGood(g, loop, y);
    }
  }

  // ---- The processor: over the floats among the values ----

  datatype Value = Float(f: real) | Double(d: real) | Another

  function FloatsOf(vs: seq<Value>): seq<real> {
    if vs == [] then [] else FloatsOf(vs[..|vs| - 1]) + (match vs[|vs| - 1] case Float(f) => [f] case _ => [])
  }

  // The floats in their order; values of other kinds give nothing.
  lemma {:induction false} FloatsInTurn(a: seq<Value>, b: seq<Value>, f: real, d: real)
    ensures FloatsOf(a + b) == FloatsOf(a) + FloatsOf(b)
    ensures FloatsOf([]) == [] && FloatsOf([Float(f)]) == [f] && FloatsOf([Double(d)]) == [] && FloatsOf([Another]) == []
  {
    FloatsTogether(a, b);
    assert [Float(f)][..0] == [] && [Double(d)][..0] == [] && [Another][..0] == [];
  }

  lemma {:induction false} FloatsTogether(a: seq<Value>, b: seq<Value>)
    ensures FloatsOf(a + b) == FloatsOf(a) + FloatsOf(b)
  {
    if b == [] {
      assert a + b == a;
    } else {
      var n := |b| - 1;
      assert (a + b)[..|a + b| - 1] == a + b[..n];
      FloatsTogether(a, b[..n]);
    }
  }

  method Floats(vs: seq<Value>) returns (fs: seq<real>)
    ensures fs == FloatsOf(vs)
  {
    fs := [];
    for i := 0 to |vs|
      invariant fs == FloatsOf(vs[..i])
    {
      assert vs[..i + 1][..i] == vs[..i];
      match vs[i]
      case Float(f) => fs := fs + [f];
      case Double(_) =>
      case Another =>
    }
    assert vs[..|vs|] == vs;
  }

  method ProcessorSum(p: Policy, vs: seq<Value>) returns (sum: real)
    ensures sum == Total(FloatsOf(vs))
  {
    var fs := Floats(vs);
    if fs == [] {
      return 0.0;
    }
    sum := SumFloats(p, fs);
  }

  // Nothing exactly when there is no float. Otherwise the best float, if it is
  // within the finite range; the lanes give the sentinel if it is not.
  method ProcessorBest(p: Policy, g: Goal, vs: seq<Value>) returns (best: Option<real>)
    ensures best.None? <==> FloatsOf(vs) == []
    ensures best.Some? && p == Scalar ==> IsBest(g, best.value, FloatsOf(vs))
    ensures best.Some? && p != Scalar ==>
              forall m :: IsBest(g, m, FloatsOf(vs)) ==> best.value == if AsGood(g, m, Sentinel(g)) then m else Sentinel(g)
  {
    var fs := Floats(vs);
    if fs == [] {
      return None;
    }
    var b := BestFloat(p, g, fs);
    LanesAgainstLoop(g, fs);
    best := Some(b);
  }
}
