/** The Earth-Mars parameter sweep driver (simulations/earth_mars/many_runs.py):
    parsing the distance and hash-rate-ratio axes, sizing each Monte-Carlo
    population from a pilot sample, building one task per grid point, and
    collating the shuffled results back into a distance-by-ratio grid. */
module ManyRuns {
  import opened Basics
  import opened Utils

  // ---------------------------------------------------------------------
  // _parse_array
  // ---------------------------------------------------------------------

  /** _parse_array accepts the same grammar as array_glob: bracketed
      "start,stop,step" ranges concatenated in order, or a comma list with
      one value per field. */
  method ParseArray(spec: string) returns (r: Result<seq<real>, GlobError>)
    ensures r == Glob(spec)
    ensures |spec| > 0 && spec[0] == '[' && r.Ok? ==>
      |r.value| == TotalLength(ExpandRange, Split(InnerSlice(spec), "]["))
    ensures !(|spec| > 0 && spec[0] == '[') && r.Ok? ==>
      && |r.value| == |Split(spec, ",")| == CountChar(spec, ',') + 1
      && forall i :: 0 <= i < |r.value| ==> ParseDecimal(Split(spec, ",")[i]) == Some(r.value[i])
  {
    r := ArrayGlob(spec);
    if r.Ok? {
      if |spec| > 0 && spec[0] == '[' {
        ExpandRangesLength(ExpandRange, Split(InnerSlice(spec), "]["));
      } else {
        GlobCommaList(spec);
      }
    }
  }

  // ---------------------------------------------------------------------
  // Sample statistics on exact reals
  // ---------------------------------------------------------------------

  /** Proof helper: a * b. Squares go through it so that the solver meets them only in
      the sign facts below. */
  function Product(a: real, b: real): real
  {
    a * b
  }

  lemma ProductPositive(a: real, b: real)
    requires a > 0.0 && b > 0.0
    ensures Product(a, b) > 0.0
  {
  }

  function Square(x: real): real
  {
    Product(x, x)
  }

  /** A square is never negative, and is zero only at zero. */
  lemma SquareSign(x: real)
    ensures Square(x) >= 0.0
    ensures Square(x) == 0.0 <==> x == 0.0
  {
    if x > 0.0 {
      ProductPositive(x, x);
    } else if x < 0.0 {
      ProductPositive(-x, -x);
      assert Product(-x, -x) == Product(x, x);
    }
  }

  /** The sum of squared deviations of the values from m. */
  function SquaredDeviations(s: seq<real>, m: real): (r: real)
    ensures r >= 0.0
  {
    if |s| == 0 then 0.0
    else
      SquareSign(s[|s| - 1] - m);
      SquaredDeviations(s[..|s| - 1], m) + Square(s[|s| - 1] - m)
  }

  /** numpy's std squared (ddof 0): the mean squared deviation from the
      mean; None is the NaN an empty array gives. */
  function Variance(s: seq<real>): (v: Option<real>)
    ensures v.None? <==> |s| == 0
    ensures v.Some? ==> v.value >= 0.0
  {
    if |s| == 0 then None else Some(SquaredDeviations(s, Mean(s).value) / |s| as real)
  }

  predicate Constant(s: seq<real>)
  {
    forall k :: 0 <= k < |s| ==> s[k] == s[0]
  }

  lemma {:induction false} SumConstant(s: seq<real>, c: real)
    requires forall k :: 0 <= k < |s| ==> s[k] == c
    ensures Sum(s) == |s| as real * c
  {
    if |s| > 0 {
      SumConstant(s[..|s| - 1], c);
    }
  }

  /** The deviations sum to zero exactly when every value is m. */
  lemma {:induction false} DeviationsVanish(s: seq<real>, m: real)
    ensures SquaredDeviations(s, m) == 0.0 <==> forall k :: 0 <= k < |s| ==> s[k] == m
  {
    if |s| > 0 {
      var init, last := s[..|s| - 1], s[|s| - 1];
      assert forall k :: 0 <= k < |init| ==> init[k] == s[k];
      DeviationsVanish(init, m);
      SquareSign(last - m);
      if SquaredDeviations(s, m) == 0.0 {
        assert last == m;
        assert forall k :: 0 <= k < |init| ==> init[k] == m;
      }
    }
  }

  /** A sample has zero spread exactly when all its values are equal. */
  lemma VarianceZero(s: seq<real>)
    requires |s| > 0
    ensures Variance(s).value == 0.0 <==> Constant(s)
  {
    var n := |s| as real;
    var m := Mean(s).value;
    DeviationsVanish(s, m);
    assert Variance(s).value * n == SquaredDeviations(s, m);
    if Constant(s) {
      SumConstant(s, s[0]);
      assert Sum(s) == n * s[0];
      assert m == s[0];
    }
    if Variance(s).value == 0.0 {
      assert s[0] == m;
    }
  }

  // ---------------------------------------------------------------------
  // Sizing a population
  // ---------------------------------------------------------------------

  /** W = |relative_error * mu|; for an empty pilot mu is NaN and so is W,
      and NaN > 0 is false (None here). */
  function Width(sample: seq<real>, relativeError: real): (w: Option<real>)
    ensures w.None? <==> |sample| == 0
    ensures w.Some? ==> w.value >= 0.0
  {
    match Mean(sample)
    case None => None
    case Some(mu) => Some(AbsReal(Product(relativeError, mu)))
  }

  /** The required count: ceil(16 * sigma^2 / W^2) when W > 0, else 1. */
  function RequiredRuns(sample: seq<real>, relativeError: real): (n: int)
    ensures n >= 0
  {
    var w := Width(sample, relativeError);
    if w.Some? && w.value > 0.0 then Sizing(Variance(sample).value, w.value) else 1
  }

  /** The formula of line 53 on a variance v and a width w > 0. */
  function Sizing(v: real, w: real): (n: int)
    requires w > 0.0
    ensures v >= 0.0 ==> n >= 0
  {
    ProductPositive(w, w);
    Ceil(16.0 * (v / Square(w)))
  }

  /** Where W > 0, N is the least count with N * W^2 >= 16 * sigma^2: a
      population of N keeps the estimate's 2-sigma half-width within W / 2. */
  lemma RequiredRunsLeast(sample: seq<real>, relativeError: real)
    requires Width(sample, relativeError).Some? && Width(sample, relativeError).value > 0.0
    ensures var w, v, n := Width(sample, relativeError).value, Variance(sample).value, RequiredRuns(sample, relativeError) as real;
      && n * Square(w) >= 16.0 * v
      && (n - 1.0) * Square(w) < 16.0 * v
  {
    var w, v := Width(sample, relativeError).value, Variance(sample).value;
    var n := RequiredRuns(sample, relativeError) as real;
    var w2 := Square(w);
    SquareSign(w);
    var x := 16.0 * (v / w2);
    assert x * w2 == 16.0 * v;
    ScaledAtLeast(x, n, w2, 16.0 * v);
    ScaledBelow(x, n - 1.0, w2, 16.0 * v);
  }

  lemma ScaledAtLeast(x: real, y: real, c: real, t: real)
    requires c > 0.0 && x * c == t && x <= y
    ensures y * c >= t
  {
    assert x * c <= y * c;
  }

  lemma ScaledBelow(x: real, y: real, c: real, t: real)
    requires c > 0.0 && x * c == t && y < x
    ensures y * c < t
  {
    assert y * c < x * c;
  }

  /** Anything else (an empty pilot, a zero mean, a zero relative error)
      asks for a single run. */
  lemma RequiredRunsWithoutWidth(sample: seq<real>, relativeError: real)
    ensures |sample| == 0 || relativeError * Mean(sample).value == 0.0 ==> RequiredRuns(sample, relativeError) == 1
  {
  }

  /** Where both widths are positive, N never falls as sigma^2 / W^2 grows
      (stated cross-multiplied): a wider spread or a narrower W never asks
      for fewer runs. */
  lemma RequiredRunsMonotone(s1: seq<real>, e1: real, s2: seq<real>, e2: real)
    requires Width(s1, e1).Some? && Width(s1, e1).value > 0.0
    requires Width(s2, e2).Some? && Width(s2, e2).value > 0.0
    requires Variance(s1).value * Square(Width(s2, e2).value) <= Variance(s2).value * Square(Width(s1, e1).value)
    ensures RequiredRuns(s1, e1) <= RequiredRuns(s2, e2)
  {
    SizingMonotone(Variance(s1).value, Width(s1, e1).value, Variance(s2).value, Width(s2, e2).value);
  }

  /** The formula grows with v / w^2 (stated cross-multiplied). */
  lemma SizingMonotone(v1: real, w1: real, v2: real, w2: real)
    requires w1 > 0.0 && w2 > 0.0 && v1 * Square(w2) <= v2 * Square(w1)
    ensures Sizing(v1, w1) <= Sizing(v2, w2)
  {
    ProductPositive(w1, w1);
    ProductPositive(w2, w2);
    RatioMonotone(v1, Square(w1), v2, Square(w2));
    CeilMonotone(16.0 * (v1 / Square(w1)), 16.0 * (v2 / Square(w2)));
  }

  /** a / b <= c / d for positive b, d whenever a * d <= c * b. */
  lemma RatioMonotone(a: real, b: real, c: real, d: real)
    requires b > 0.0 && d > 0.0 && a * d <= c * b
    ensures a / b <= c / d
  {
    var x, y := a / b, c / d;
    assert a == x * b && c == y * d;
    assert x * (b * d) <= y * (b * d);
    assert b * d > 0.0;
  }

  /** A narrower width never asks for fewer runs. */
  lemma SizingNarrower(v: real, w1: real, w2: real)
    requires v >= 0.0 && 0.0 < w2 <= w1
    ensures Sizing(v, w1) <= Sizing(v, w2)
  {
    SquareAbsMonotone(w2, w1);
    MulLeft(v, Square(w2), Square(w1));
    SizingMonotone(v, w1, v, w2);
  }

  /** A smaller absolute value has a smaller square. */
  lemma SquareAbsMonotone(x: real, y: real)
    requires AbsReal(x) <= AbsReal(y)
    ensures Square(x) <= Square(y)
  {
    var a, b := AbsReal(x), AbsReal(y);
    assert Square(x) == a * a by {
      if x < 0.0 { assert a == -x; }
    }
    assert Square(y) == b * b by {
      if y < 0.0 { assert b == -y; }
    }
    calc {
      a * a;
    <= { MulLeft(a, a, b); }
      a * b;
    == b * a;
    <= { MulLeft(b, a, b); }
      b * b;
    }
  }

  lemma MulLeft(c: real, x: real, y: real)
    requires c >= 0.0 && x <= y
    ensures c * x <= c * y
  {
  }

  /** |a * b| is |a| * |b|. */
  lemma AbsProduct(a: real, b: real)
    ensures AbsReal(Product(a, b)) == AbsReal(a) * AbsReal(b)
  {
    if a < 0.0 && b < 0.0 {
      assert a * b == (-a) * (-b);
    } else if a < 0.0 {
      assert -(a * b) == (-a) * b;
    } else if b < 0.0 {
      assert -(a * b) == a * (-b);
    }
  }

  /** Where W = |relative_error * mu| is positive, N is the formula on it;
      so two counts compare as their formulas do. */
  lemma RequiredRunsCompare(s1: seq<real>, e1: real, s2: seq<real>, e2: real)
    requires |s1| > 0 && AbsReal(Product(e1, Mean(s1).value)) > 0.0
    requires |s2| > 0 && AbsReal(Product(e2, Mean(s2).value)) > 0.0
    requires Sizing(Variance(s1).value, AbsReal(Product(e1, Mean(s1).value))) <= Sizing(Variance(s2).value, AbsReal(Product(e2, Mean(s2).value)))
    ensures RequiredRuns(s1, e1) <= RequiredRuns(s2, e2)
  {
    RequiredRunsIsSizing(s1, e1);
    RequiredRunsIsSizing(s2, e2);
  }

  lemma RequiredRunsIsSizing(sample: seq<real>, e: real)
    requires |sample| > 0 && AbsReal(Product(e, Mean(sample).value)) > 0.0
    ensures RequiredRuns(sample, e) == Sizing(Variance(sample).value, AbsReal(Product(e, Mean(sample).value)))
  {
  }

  /** For a non-zero mu, |e2| <= |e1| with e2 != 0 gives 0 < |e2 * mu| <= |e1 * mu|. */
  lemma NarrowerArith(e1: real, e2: real, mu: real)
    requires mu != 0.0 && 0.0 < AbsReal(e2) <= AbsReal(e1)
    ensures 0.0 < AbsReal(Product(e2, mu)) <= AbsReal(Product(e1, mu))
  {
    AbsProduct(e1, mu);
    AbsProduct(e2, mu);
    ProductPositive(AbsReal(e2), AbsReal(mu));
    calc {
      AbsReal(Product(e2, mu));
    == AbsReal(e2) * AbsReal(mu);
    == AbsReal(mu) * AbsReal(e2);
    <= { MulLeft(AbsReal(mu), AbsReal(e2), AbsReal(e1)); }
      AbsReal(mu) * AbsReal(e1);
    == AbsReal(e1) * AbsReal(mu);
    == AbsReal(Product(e1, mu));
    }
  }

  /** For one pilot with a non-zero mean, a smaller non-zero relative error
      never asks for fewer runs. */
  lemma RequiredRunsShrinkingError(sample: seq<real>, e1: real, e2: real)
    requires |sample| > 0 && Mean(sample).value != 0.0
    requires 0.0 < AbsReal(e2) <= AbsReal(e1)
    ensures RequiredRuns(sample, e1) <= RequiredRuns(sample, e2)
  {
    NarrowerArith(e1, e2, Mean(sample).value);
    SizingNarrower(Variance(sample).value, AbsReal(Product(e1, Mean(sample).value)), AbsReal(Product(e2, Mean(sample).value)));
    RequiredRunsCompare(sample, e1, sample, e2);
  }

  /** For one non-zero relative error, a pilot whose (sigma / mu)^2 is no
      larger (stated cross-multiplied) never asks for more runs. */
  lemma RequiredRunsSpread(s1: seq<real>, s2: seq<real>, e: real)
    requires |s1| > 0 && |s2| > 0 && e != 0.0
    requires Mean(s1).value != 0.0 && Mean(s2).value != 0.0
    requires Variance(s1).value * Square(Mean(s2).value) <= Variance(s2).value * Square(Mean(s1).value)
    ensures RequiredRuns(s1, e) <= RequiredRuns(s2, e)
  {
    var v1, m1, v2, m2 := Variance(s1).value, Mean(s1).value, Variance(s2).value, Mean(s2).value;
    SizingSpread(v1, m1, v2, m2, e);
    RequiredRunsCompare(s1, e, s2, e);
  }

  /** With W_k = |e * mu_k|, the formula grows with v / mu^2. */
  lemma SizingSpread(v1: real, m1: real, v2: real, m2: real, e: real)
    requires e != 0.0 && m1 != 0.0 && m2 != 0.0 && v1 * Square(m2) <= v2 * Square(m1)
    ensures AbsReal(Product(e, m1)) > 0.0 && AbsReal(Product(e, m2)) > 0.0
    ensures Sizing(v1, AbsReal(Product(e, m1))) <= Sizing(v2, AbsReal(Product(e, m2)))
  {
    var w1, w2 := AbsReal(Product(e, m1)), AbsReal(Product(e, m2));
    AbsProductSquare(e, m1);
    AbsProductSquare(e, m2);
    SquareSign(e);
    SpreadScale(v1, v2, Square(m1), Square(m2), Square(e), Square(w1), Square(w2));
    SizingMonotone(v1, w1, v2, w2);
  }

  /** |e * mu|^2 is e^2 * mu^2, and |e * mu| > 0 once both are non-zero. */
  lemma AbsProductSquare(e: real, mu: real)
    ensures Square(AbsReal(Product(e, mu))) == Square(e) * Square(mu)
    ensures e != 0.0 && mu != 0.0 ==> AbsReal(Product(e, mu)) > 0.0
  {
    assert Square(AbsReal(Product(e, mu))) == (e * mu) * (e * mu);
    assert (e * mu) * (e * mu) == (e * e) * (mu * mu);
  }

  lemma SpreadScale(v1: real, v2: real, m1: real, m2: real, c: real, q1: real, q2: real)
    requires c >= 0.0 && v1 * m2 <= v2 * m1
    requires q1 == c * m1 && q2 == c * m2
    ensures v1 * q2 <= v2 * q1
  {
    MulLeft(c, v1 * m2, v2 * m1);
    assert v1 * (c * m2) == c * (v1 * m2);
    assert v2 * (c * m1) == c * (v2 * m1);
  }

  /** Monotonicity stops at W = 0: a relative error of 0 asks for one run
      where a small positive one asks for 400, for the pilot [1, 3]
      (mean 2, variance 1). */
  lemma RequiredRunsDropAtZeroWidth()
    ensures RequiredRuns([1.0, 3.0], 0.1) == 400
    ensures RequiredRuns([1.0, 3.0], 0.0) == 1
  {
    var s := [1.0, 3.0];
    assert Sum(s) == 4.0 by {
      assert s[..1] == [1.0];
      assert [1.0][..0] == [];
    }
    assert Mean(s).value == 2.0;
    assert SquaredDeviations(s, 2.0) == 2.0 by {
      assert s[..1] == [1.0];
      assert [1.0][..0] == [];
    }
    assert Variance(s).value == 1.0;
    assert Width(s, 0.1).value == 0.2;
    assert Square(0.2) == 0.04;
    assert 16.0 * (1.0 / 0.04) == 400.0;
  }

  /** A pilot with no spread asks for no further runs when W > 0. */
  lemma ConstantPilotNeedsNone(sample: seq<real>, relativeError: real)
    requires |sample| > 0 && Constant(sample) && relativeError * Mean(sample).value != 0.0
    ensures RequiredRuns(sample, relativeError) == 0
  {
    VarianceZero(sample);
    var w := Width(sample, relativeError).value;
    assert w > 0.0;
    SquareSign(w);
    assert Variance(sample).value == 0.0;
    assert 16.0 * (0.0 / Square(w)) == 0.0;
  }

  /** The clamp of lines 56-59: first capped at max_runs, then raised to
      sample_size, so sample_size wins when the two conflict. */
  function Clamp(n: int, sampleSize: int, maxRuns: int): (m: int)
    ensures m >= sampleSize
    ensures sampleSize <= maxRuns ==> m <= maxRuns
    ensures sampleSize > maxRuns ==> m == sampleSize
    ensures sampleSize <= n <= maxRuns ==> m == n
    ensures sampleSize <= maxRuns < n ==> m == maxRuns
    ensures n < sampleSize ==> m == sampleSize
  {
    var capped := if n > maxRuns then maxRuns else n;
    if capped < sampleSize then sampleSize else capped
  }

  /** The clamp keeps order: a larger required count never gives a
      smaller population. */
  lemma ClampMonotone(n1: int, n2: int, sampleSize: int, maxRuns: int)
    requires n1 <= n2
    ensures Clamp(n1, sampleSize, maxRuns) <= Clamp(n2, sampleSize, maxRuns)
  {
  }

  // ---------------------------------------------------------------------
  // _single_population
  // ---------------------------------------------------------------------

  /** The fields shared by every task of a sweep. */
  datatype Settings = Settings(hours: int, sampleSize: int, relativeError: real, maxRuns: int)

  /** One grid point's parameter tuple. */
  datatype Task = Task(settings: Settings, distance: real, ratio: real)

  /** What _single_population returns: (distance, ratio, samples). */
  datatype Population = Population(distance: real, ratio: real, samples: seq<real>)

  /** Trials number `from` onwards, `count` of them ([] for a negative count,
      as range does). */
  function Draw(trials: nat -> real, from: nat, count: int): (r: seq<real>)
    ensures count >= 0 ==> |r| == count
    ensures count < 0 ==> r == []
    ensures forall k :: 0 <= k < |r| ==> r[k] == trials(from + k)
  {
    seq(RangeLength(count), k requires 0 <= k => trials(from + k))
  }

  /** N for a task, given its pilot sample. */
  function PopulationSize(t: Task, pilot: seq<real>): int
  {
    Clamp(RequiredRuns(pilot, t.settings.relativeError), t.settings.sampleSize, t.settings.maxRuns)
  }

  /** _single_population: the pilot is the first sample_size trials, the
      population the next N, and the samples returned are the population
      followed by the pilot. Trial k's mars-block share is trials(k). */
  function SinglePopulation(t: Task, trials: nat -> real): (p: Population)
    ensures p.distance == t.distance && p.ratio == t.ratio
    ensures var pilot := Draw(trials, 0, t.settings.sampleSize);
      var n := RangeLength(PopulationSize(t, pilot));
      && |p.samples| == n + |pilot|
      && p.samples[n..] == pilot
      && forall k :: 0 <= k < n ==> p.samples[k] == trials(|pilot| + k)
  {
    var pilot := Draw(trials, 0, t.settings.sampleSize);
    var population := Draw(trials, |pilot|, PopulationSize(t, pilot));
    Population(t.distance, t.ratio, population + pilot)
  }

  /** The returned array always holds at least two copies' worth of the
      pilot size, and never more than max_runs plus the pilot when
      sample_size <= max_runs; when sample_size > max_runs it holds exactly
      twice the pilot. */
  lemma PopulationLength(t: Task, trials: nat -> real)
    ensures var s := t.settings; var len := |SinglePopulation(t, trials).samples|;
      && len >= 2 * RangeLength(s.sampleSize)
      && (0 <= s.sampleSize <= s.maxRuns ==> len <= s.maxRuns + s.sampleSize)
      && (s.sampleSize > s.maxRuns ==> len == 2 * RangeLength(s.sampleSize))
  {
  }

  // ---------------------------------------------------------------------
  // Building the tasks
  // ---------------------------------------------------------------------

  /** The tasks of one distance, one per ratio, in ratio order. */
  function Row(s: Settings, d: real, rs: seq<real>): (row: seq<Task>)
    ensures |row| == |rs|
  {
    seq(|rs|, j requires 0 <= j < |rs| => Task(s, d, rs[j]))
  }

  /** The task list of lines 77-80: for each distance, for each ratio. */
  function TaskGrid(s: Settings, ds: seq<real>, rs: seq<real>): (tasks: seq<Task>)
    ensures |tasks| == |ds| * |rs|
    decreases |ds|
  {
    if ds == [] then []
    else
      assert |ds| * |rs| == (|ds| - 1) * |rs| + |rs|;
      TaskGrid(s, ds[..|ds| - 1], rs) + Row(s, ds[|ds| - 1], rs)
  }

  /** The tasks are distance-major: task i * |rs| + j is the pair (ds[i], rs[j]). */
  lemma {:induction false} TaskGridAt(s: Settings, ds: seq<real>, rs: seq<real>, i: nat, j: nat)
    requires i < |ds| && j < |rs|
    ensures i * |rs| + j < |TaskGrid(s, ds, rs)|
    ensures TaskGrid(s, ds, rs)[i * |rs| + j] == Task(s, ds[i], rs[j])
    decreases |ds|
  {
    var init := ds[..|ds| - 1];
    var n := |init|;
    if i < n {
      assert (n - i - 1) * |rs| >= 0;
      assert i * |rs| + j < n * |rs|;
      TaskGridAt(s, init, rs, i, j);
      assert init[i] == ds[i];
    } else {
      assert i * |rs| + j == n * |rs| + j;
    }
  }

  /** Conversely every task is some pair (ds[i], rs[j]), at index i * |rs| + j. */
  lemma TaskGridCell(s: Settings, ds: seq<real>, rs: seq<real>, k: nat) returns (i: nat, j: nat)
    requires k < |TaskGrid(s, ds, rs)|
    ensures i < |ds| && j < |rs| && k == i * |rs| + j
    ensures TaskGrid(s, ds, rs)[k] == Task(s, ds[i], rs[j])
  {
    assert |rs| > 0;
    var w := |rs|;
    i, j := k / w, k % w;
    DivBelow(k, w, |ds|);
    TaskGridAt(s, ds, rs, i, j);
  }

  lemma DivBelow(k: nat, w: nat, n: nat)
    requires w > 0 && k < n * w
    ensures k / w < n && k == (k / w) * w + k % w
  {
    var i := k / w;
    assert k == i * w + k % w;
    if i >= n {
      ScaleAtMost(n, i, w);
      assert false;
    }
  }

  lemma ScaleAtMost(a: int, b: int, c: nat)
    requires a <= b
    ensures a * c <= b * c
  {
    assert (b - a) * c >= 0;
  }

  /** The nested append loops of lines 77-80. */
  method BuildTasks(s: Settings, ds: seq<real>, rs: seq<real>) returns (tasks: seq<Task>)
    ensures tasks == TaskGrid(s, ds, rs)
  {
    tasks := [];
    for i := 0 to |ds|
      invariant tasks == TaskGrid(s, ds[..i], rs)
    {
      for j := 0 to |rs|
        invariant tasks == TaskGrid(s, ds[..i], rs) + Row(s, ds[i], rs[..j])
      {
        assert Row(s, ds[i], rs[..j + 1]) == Row(s, ds[i], rs[..j]) + [Task(s, ds[i], rs[j])];
        tasks := tasks + [Task(s, ds[i], rs[j])];
      }
      assert rs[..|rs|] == rs;
      assert ds[..i + 1][..i] == ds[..i];
    }
    assert ds[..|ds|] == ds;
  }

  // ---------------------------------------------------------------------
  // Shuffling and running
  // ---------------------------------------------------------------------

  /** The shuffle is some permutation of range(n): position p receives task
      order[p]. */
  predicate IsPermutation(order: seq<nat>, n: nat)
  {
    && |order| == n
    && (forall p :: 0 <= p < n ==> order[p] < n)
    && Distinct(order)
    && (forall k :: 0 <= k < n ==> k in order)
  }

  /** The position the shuffle sent task k to. */
  function PositionOf(order: seq<nat>, k: nat): (p: nat)
    requires k in order
    ensures p < |order| && order[p] == k
  {
    if order[0] == k then 0 else 1 + PositionOf(order[1..], k)
  }

  /** Each result lies at the distance and ratio of the task it was run for. */
  predicate Echoes(results: seq<Population>, tasks: seq<Task>, order: seq<nat>)
  {
    && |results| == |order|
    && forall q :: 0 <= q < |order| ==>
         && order[q] < |tasks|
         && results[q].distance == tasks[order[q]].distance
         && results[q].ratio == tasks[order[q]].ratio
  }

  /** executor.map(_single_population, populations): the task at shuffled
      position p draws the trial stream trials(p). */
  function Populations(tasks: seq<Task>, order: seq<nat>, trials: nat -> nat -> real): (results: seq<Population>)
    requires forall p :: 0 <= p < |order| ==> order[p] < |tasks|
    ensures |results| == |order|
    ensures Echoes(results, tasks, order)
  {
    var results := seq(|order|, p requires 0 <= p < |order| => SinglePopulation(tasks[order[p]], trials(p)));
    assert forall q :: 0 <= q < |order| ==> results[q] == SinglePopulation(tasks[order[q]], trials(q));
    results
  }

  // ---------------------------------------------------------------------
  // Collation
  // ---------------------------------------------------------------------

  /** [result for result in results if result[0] == distance] */
  function WithDistance(results: seq<Population>, d: real): (r: seq<Population>)
    ensures forall p :: p in r <==> p in results && p.distance == d
    ensures |r| <= |results|
  {
    if results == [] then []
    else (if results[0].distance == d then [results[0]] else []) + WithDistance(results[1..], d)
  }

  /** [result for result in results if result[1] == hashrate_ratio] */
  function WithRatio(results: seq<Population>, r: real): (m: seq<Population>)
    ensures forall p :: p in m <==> p in results && p.ratio == r
    ensures |m| <= |results|
  {
    if results == [] then []
    else (if results[0].ratio == r then [results[0]] else []) + WithRatio(results[1..], r)
  }

  predicate At(p: Population, d: real, r: real)
  {
    p.distance == d && p.ratio == r
  }

  /** The results at (d, r), in result order. */
  function Matching(results: seq<Population>, d: real, r: real): seq<Population>
  {
    if results == [] then []
    else (if At(results[0], d, r) then [results[0]] else []) + Matching(results[1..], d, r)
  }

  /** The first result at (d, r)'s samples; None is the IndexError [0]
      raises when there is none. */
  function Entry(results: seq<Population>, d: real, r: real): (e: Option<seq<real>>)
    ensures e.Some? <==> exists q :: 0 <= q < |results| && At(results[q], d, r)
    ensures e.Some? ==> exists q :: FirstAt(results, d, r, q) && results[q].samples == e.value
  {
    var matches := WithRatio(WithDistance(results, d), r);
    if matches == [] then None
    else
      FiltersCompose(results, d, r);
      MatchingFirst(results, d, r);
      Some(matches[0].samples)
  }

  /** results[q] is the first result at (d, r). */
  predicate FirstAt(results: seq<Population>, d: real, r: real, q: int)
  {
    && 0 <= q < |results| && At(results[q], d, r)
    && forall q' :: 0 <= q' < q ==> !At(results[q'], d, r)
  }

  /** The head of the match list is the first result at (d, r). */
  lemma {:induction false} MatchingFirst(results: seq<Population>, d: real, r: real)
    requires Matching(results, d, r) != []
    ensures exists q :: FirstAt(results, d, r, q) && results[q] == Matching(results, d, r)[0]
    decreases |results|
  {
    if At(results[0], d, r) {
      assert FirstAt(results, d, r, 0);
    } else {
      MatchingFirst(results[1..], d, r);
      var q :| FirstAt(results[1..], d, r, q) && results[1..][q] == Matching(results[1..], d, r)[0];
      assert results[q + 1] == results[1..][q];
      forall q' | 0 <= q' < q + 1
        ensures !At(results[q'], d, r)
      {
        if q' > 0 {
          assert results[q'] == results[1..][q' - 1];
        }
      }
      assert FirstAt(results, d, r, q + 1);
    }
  }

  lemma {:induction false} WithRatioAppend(a: seq<Population>, b: seq<Population>, r: real)
    ensures WithRatio(a + b, r) == WithRatio(a, r) + WithRatio(b, r)
    decreases |a|
  {
    if a != [] {
      assert (a + b)[1..] == a[1..] + b;
      WithRatioAppend(a[1..], b, r);
    } else {
      assert a + b == b;
    }
  }

  /** Filtering by distance and then by ratio keeps the results at (d, r). */
  lemma {:induction false} FiltersCompose(results: seq<Population>, d: real, r: real)
    ensures WithRatio(WithDistance(results, d), r) == Matching(results, d, r)
    decreases |results|
  {
    if results != [] {
      var head := if results[0].distance == d then [results[0]] else [];
      WithRatioAppend(head, WithDistance(results[1..], d), r);
      FiltersCompose(results[1..], d, r);
      if results[0].distance == d {
        assert WithRatio(head, r) == (if results[0].ratio == r then [results[0]] else []) + WithRatio([], r);
      }
    }
  }

  /** A result at (d, r) makes the match list non-empty. */
  lemma {:induction false} MatchingFound(results: seq<Population>, d: real, r: real, p: nat)
    requires p < |results| && At(results[p], d, r)
    ensures Matching(results, d, r) != []
    decreases p
  {
    if p > 0 && !At(results[0], d, r) {
      assert results[1..][p - 1] == results[p];
      MatchingFound(results[1..], d, r, p - 1);
    }
  }

  /** A result at (d, r) makes the collation find an entry there. */
  lemma EntryFound(results: seq<Population>, d: real, r: real, p: nat)
    requires p < |results| && At(results[p], d, r)
    ensures Entry(results, d, r).Some?
  {
    MatchingFound(results, d, r, p);
    FiltersCompose(results, d, r);
  }

  /** When results[p] is the only result at (d, r), the collation picks its
      samples. */
  lemma EntryUnique(results: seq<Population>, d: real, r: real, p: nat)
    requires p < |results| && At(results[p], d, r)
    requires forall q :: 0 <= q < |results| && At(results[q], d, r) ==> q == p
    ensures Entry(results, d, r) == Some(results[p].samples)
  {
    MatchingUnique(results, d, r, p);
    FiltersCompose(results, d, r);
  }

  /** The only result at (d, r) is the whole match list. */
  lemma {:induction false} MatchingUnique(results: seq<Population>, d: real, r: real, p: nat)
    requires p < |results| && At(results[p], d, r)
    requires forall q :: 0 <= q < |results| && q != p ==> !At(results[q], d, r)
    ensures Matching(results, d, r) == [results[p]]
    decreases p
  {
    if p == 0 {
      MatchingNone(results[1..], d, r);
    } else {
      assert !At(results[0], d, r);
      assert results[1..][p - 1] == results[p];
      forall q | 0 <= q < |results[1..]| && q != p - 1
        ensures !At(results[1..][q], d, r)
      {
        assert results[1..][q] == results[q + 1];
      }
      MatchingUnique(results[1..], d, r, p - 1);
    }
  }

  lemma {:induction false} MatchingNone(results: seq<Population>, d: real, r: real)
    requires forall q :: 0 <= q < |results| ==> !At(results[q], d, r)
    ensures Matching(results, d, r) == []
    decreases |results|
  {
    if results != [] {
      assert forall q :: 0 <= q < |results[1..]| ==> results[1..][q] == results[q + 1];
      MatchingNone(results[1..], d, r);
    }
  }

  /** The grid of lines 89-96: grid[i][j] is Entry(results, ds[i], rs[j]);
      None when some entry raises. */
  function Collated(results: seq<Population>, ds: seq<real>, rs: seq<real>): (g: Option<seq<seq<seq<real>>>>)
    ensures g.Some? <==> forall i, j :: 0 <= i < |ds| && 0 <= j < |rs| ==> Entry(results, ds[i], rs[j]).Some?
    ensures g.Some? ==> |g.value| == |ds| && forall i :: 0 <= i < |ds| ==> |g.value[i]| == |rs|
    ensures g.Some? ==> forall i, j :: 0 <= i < |ds| && 0 <= j < |rs| ==>
      Entry(results, ds[i], rs[j]) == Some(g.value[i][j])
  {
    if forall i, j :: 0 <= i < |ds| && 0 <= j < |rs| ==> Entry(results, ds[i], rs[j]).Some?
    then
      var g := seq(|ds|, i requires 0 <= i < |ds| => EntryRow(results, ds[i], rs));
      GridEntries(results, ds, rs, g);
      Some(g)
    else None
  }

  /** Rows built by EntryRow hold exactly the entries, where all exist. */
  lemma GridEntries(results: seq<Population>, ds: seq<real>, rs: seq<real>, g: seq<seq<seq<real>>>)
    requires forall i, j :: 0 <= i < |ds| && 0 <= j < |rs| ==> Entry(results, ds[i], rs[j]).Some?
    requires |g| == |ds| && forall i :: 0 <= i < |ds| ==> g[i] == EntryRow(results, ds[i], rs)
    ensures forall i :: 0 <= i < |ds| ==> |g[i]| == |rs|
    ensures forall i, j :: 0 <= i < |ds| && 0 <= j < |rs| ==> Entry(results, ds[i], rs[j]) == Some(g[i][j])
  {
  }

  /** One row of the grid: the entries at distance d, in ratio order
      (only read where every entry exists). */
  function EntryRow(results: seq<Population>, d: real, rs: seq<real>): seq<seq<real>>
  {
    seq(|rs|, j requires 0 <= j < |rs| => match Entry(results, d, rs[j]) case Some(v) => v case None => [])
  }

  /** The grid depends on the results only through their entries. */
  lemma CollatedAgree(results1: seq<Population>, results2: seq<Population>, ds: seq<real>, rs: seq<real>)
    requires forall i, j :: 0 <= i < |ds| && 0 <= j < |rs| ==>
      Entry(results1, ds[i], rs[j]) == Entry(results2, ds[i], rs[j])
    ensures Collated(results1, ds, rs) == Collated(results2, ds, rs)
  {
    forall i | 0 <= i < |ds|
      ensures EntryRow(results1, ds[i], rs) == EntryRow(results2, ds[i], rs)
    {
      assert forall j :: 0 <= j < |rs| ==> Entry(results1, ds[i], rs[j]) == Entry(results2, ds[i], rs[j]);
    }
    assert seq(|ds|, i requires 0 <= i < |ds| => EntryRow(results1, ds[i], rs))
        == seq(|ds|, i requires 0 <= i < |ds| => EntryRow(results2, ds[i], rs));
  }

  /** The row of the grid at distance d, or None when some ratio has no
      result at that distance. */
  function CollatedRow(results: seq<Population>, d: real, rs: seq<real>): Option<seq<seq<real>>>
  {
    if forall j :: 0 <= j < |rs| ==> Entry(results, d, rs[j]).Some?
    then Some(EntryRow(results, d, rs))
    else None
  }

  /** A ratio without an entry leaves the row missing. */
  lemma CellMissing(results: seq<Population>, d: real, rs: seq<real>, j: nat)
    requires j < |rs| && Entry(results, d, rs[j]).None?
    ensures CollatedRow(results, d, rs).None?
  {
  }

  /** Cells collated one ratio at a time make up the row. */
  lemma CellsCollated(results: seq<Population>, d: real, rs: seq<real>, cells: seq<seq<real>>)
    requires |cells| == |rs|
    requires forall b :: 0 <= b < |rs| ==> Entry(results, d, rs[b]) == Some(cells[b])
    ensures CollatedRow(results, d, rs) == Some(cells)
  {
    assert EntryRow(results, d, rs) == cells;
  }

  /** The inner loop of lines 91-95: the results at distance d, then for
      each ratio the first of those at that ratio. */
  method CollateRow(results: seq<Population>, d: real, rs: seq<real>)
    returns (row: Option<seq<seq<real>>>)
    ensures row == CollatedRow(results, d, rs)
  {
    var atDistance := WithDistance(results, d);
    var cells: seq<seq<real>> := [];
    for j := 0 to |rs|
      invariant |cells| == j
      invariant forall b :: 0 <= b < j ==> Entry(results, d, rs[b]) == Some(cells[b])
    {
      var matches := WithRatio(atDistance, rs[j]);
      if matches == [] {
        CellMissing(results, d, rs, j);
        return None;
      }
      cells := cells + [matches[0].samples];
    }
    CellsCollated(results, d, rs, cells);
    row := Some(cells);
  }

  /** A distance whose row is missing an entry leaves the grid missing. */
  lemma RowMissing(results: seq<Population>, ds: seq<real>, rs: seq<real>, i: nat)
    requires i < |ds| && CollatedRow(results, ds[i], rs).None?
    ensures Collated(results, ds, rs).None?
  {
    var j :| 0 <= j < |rs| && Entry(results, ds[i], rs[j]).None?;
  }

  /** Rows collated one distance at a time make up the grid. */
  lemma RowsCollated(results: seq<Population>, ds: seq<real>, rs: seq<real>, rows: seq<seq<seq<real>>>)
    requires |rows| == |ds|
    requires forall a :: 0 <= a < |ds| ==> CollatedRow(results, ds[a], rs) == Some(rows[a])
    ensures Collated(results, ds, rs) == Some(rows)
  {
    assert forall i, j :: 0 <= i < |ds| && 0 <= j < |rs| ==> Entry(results, ds[i], rs[j]).Some? by {
      forall i, j | 0 <= i < |ds| && 0 <= j < |rs|
        ensures Entry(results, ds[i], rs[j]).Some?
      {
        assert CollatedRow(results, ds[i], rs).Some?;
      }
    }
    assert rows == seq(|ds|, i requires 0 <= i < |ds| => EntryRow(results, ds[i], rs));
  }

  /** The nested loops of lines 89-96: one row per distance. */
  method CollateGrid(results: seq<Population>, ds: seq<real>, rs: seq<real>)
    returns (grid: Option<seq<seq<seq<real>>>>)
    ensures grid == Collated(results, ds, rs)
  {
    var rows: seq<seq<seq<real>>> := [];
    for i := 0 to |ds|
      invariant |rows| == i
      invariant forall a :: 0 <= a < i ==> CollatedRow(results, ds[a], rs) == Some(rows[a])
    {
      var row := CollateRow(results, ds[i], rs);
      if row.None? {
        RowMissing(results, ds, rs, i);
        return None;
      }
      rows := rows + [row.value];
    }
    RowsCollated(results, ds, rs, rows);
    grid := Some(rows);
  }

  // ---------------------------------------------------------------------
  // many_runs
  // ---------------------------------------------------------------------

  /** distances[0] (line 74) and hashrate_ratios[0] (line 75) raise on an
      empty axis, as would [0] of an empty match list in the collation. */
  datatype SweepError = IndexError

  /** What many_runs returns: (distances, hashrate_ratios, grid). */
  datatype Sweep = Sweep(distances: seq<real>, ratios: seq<real>, grid: seq<seq<seq<real>>>)

  /** The whole sweep: tasks built, shuffled by `order`, each run on its
      own trial stream, and collated. */
  function Outcome(s: Settings, ds: seq<real>, rs: seq<real>, order: seq<nat>, trials: nat -> nat -> real)
    : (o: Result<Sweep, SweepError>)
    requires IsPermutation(order, |ds| * |rs|)
    ensures |ds| == 0 || |rs| == 0 ==> o == Err(IndexError)
    ensures o.Ok? ==> o.value.distances == ds && o.value.ratios == rs && |o.value.grid| == |ds|
  {
    if |ds| == 0 || |rs| == 0 then Err(IndexError)
    else
      match Collated(Populations(TaskGrid(s, ds, rs), order, trials), ds, rs)
      case None => Err(IndexError)
      case Some(g) => Ok(Sweep(ds, rs, g))
  }

  /** Task (i, j) was run at the position where the shuffle put its index,
      and that run lies at (ds[i], rs[j]). */
  lemma OwnRunAt(results: seq<Population>, s: Settings, ds: seq<real>, rs: seq<real>, order: seq<nat>, i: nat, j: nat)
      returns (p: nat)
    requires IsPermutation(order, |ds| * |rs|) && Echoes(results, TaskGrid(s, ds, rs), order)
    requires i < |ds| && j < |rs|
    ensures i * |rs| + j in order && p == PositionOf(order, i * |rs| + j)
    ensures p < |results| && order[p] == i * |rs| + j && At(results[p], ds[i], rs[j])
  {
    TaskGridAt(s, ds, rs, i, j);
    p := PositionOf(order, i * |rs| + j);
  }

  /** With distinct axis values, the run of task (i, j) is the only one at
      (ds[i], rs[j]). */
  lemma OnlyOwnRun(results: seq<Population>, s: Settings, ds: seq<real>, rs: seq<real>, order: seq<nat>,
                   i: nat, j: nat, p: nat)
    requires IsPermutation(order, |ds| * |rs|) && Distinct(ds) && Distinct(rs)
    requires Echoes(results, TaskGrid(s, ds, rs), order)
    requires i < |ds| && j < |rs| && p < |order| && order[p] == i * |rs| + j
    ensures forall q :: 0 <= q < |results| && At(results[q], ds[i], rs[j]) ==> q == p
  {
    forall q | 0 <= q < |results| && At(results[q], ds[i], rs[j])
      ensures q == p
    {
      var i', j' := TaskGridCell(s, ds, rs, order[q]);
      DistinctAt(ds, i, i');
      DistinctAt(rs, j, j');
      DistinctAt(order, p, q);
    }
  }

  /** Every grid point has at least one result, so no [0] of the collation
      raises. */
  lemma EntryExists(s: Settings, ds: seq<real>, rs: seq<real>, order: seq<nat>, trials: nat -> nat -> real, i: nat, j: nat)
    requires IsPermutation(order, |ds| * |rs|) && i < |ds| && j < |rs|
    ensures Entry(Populations(TaskGrid(s, ds, rs), order, trials), ds[i], rs[j]).Some?
  {
    var results := Populations(TaskGrid(s, ds, rs), order, trials);
    var p := OwnRunAt(results, s, ds, rs, order, i, j);
    EntryFound(results, ds[i], rs[j], p);
  }

  /** With distinct axis values, grid point (i, j) holds the samples of the
      one run made for (ds[i], rs[j]), wherever the shuffle put it. */
  lemma EntryOfTask(s: Settings, ds: seq<real>, rs: seq<real>, order: seq<nat>, trials: nat -> nat -> real, i: nat, j: nat)
    requires IsPermutation(order, |ds| * |rs|) && Distinct(ds) && Distinct(rs)
    requires i < |ds| && j < |rs|
    ensures var k := i * |rs| + j;
      && k in order
      && Entry(Populations(TaskGrid(s, ds, rs), order, trials), ds[i], rs[j])
         == Some(SinglePopulation(Task(s, ds[i], rs[j]), trials(PositionOf(order, k))).samples)
  {
    var tasks := TaskGrid(s, ds, rs);
    var p := EntryOfRun(Populations(tasks, order, trials), s, ds, rs, order, i, j);
    PopulationAt(tasks, order, trials, p);
    TaskGridAt(s, ds, rs, i, j);
  }

  /** For any results echoing the shuffled tasks, with distinct axis values,
      grid point (i, j) holds the samples of the result at the position of
      task i * |rs| + j. */
  lemma EntryOfRun(results: seq<Population>, s: Settings, ds: seq<real>, rs: seq<real>, order: seq<nat>,
                   i: nat, j: nat) returns (p: nat)
    requires IsPermutation(order, |ds| * |rs|) && Distinct(ds) && Distinct(rs)
    requires Echoes(results, TaskGrid(s, ds, rs), order)
    requires i < |ds| && j < |rs|
    ensures i * |rs| + j in order && p == PositionOf(order, i * |rs| + j)
    ensures p < |results| && order[p] == i * |rs| + j
    ensures Entry(results, ds[i], rs[j]) == Some(results[p].samples)
  {
    p := OwnRunAt(results, s, ds, rs, order, i, j);
    OnlyOwnRun(results, s, ds, rs, order, i, j, p);
    EntryUnique(results, ds[i], rs[j], p);
  }

  /** The result at shuffled position p is the run of the task placed there,
      on trial stream p. */
  lemma PopulationAt(tasks: seq<Task>, order: seq<nat>, trials: nat -> nat -> real, p: nat)
    requires forall q :: 0 <= q < |order| ==> order[q] < |tasks|
    requires p < |order|
    ensures Populations(tasks, order, trials)[p] == SinglePopulation(tasks[order[p]], trials(p))
  {
  }

  /** many_runs fails exactly on an empty axis; otherwise the grid is
      |distances| rows of |ratios| sample arrays. */
  lemma OutcomeShape(s: Settings, ds: seq<real>, rs: seq<real>, order: seq<nat>, trials: nat -> nat -> real)
    requires IsPermutation(order, |ds| * |rs|)
    ensures var r := Outcome(s, ds, rs, order, trials);
      && (r.Ok? <==> |ds| > 0 && |rs| > 0)
      && (r.Ok? ==> r.value.distances == ds && r.value.ratios == rs && |r.value.grid| == |ds|
                    && forall i :: 0 <= i < |ds| ==> |r.value.grid[i]| == |rs|)
  {
    if |ds| > 0 && |rs| > 0 {
      forall i, j | 0 <= i < |ds| && 0 <= j < |rs|
        ensures     Entry(Populations(TaskGrid(s, ds, rs), order, trials), ds[i], rs[j]).Some?
      {
        EntryExists(s, ds, rs, order, trials, i, j);
      }
    }
  }

  /** With distinct axis values the collated grid does not depend on the
      shuffle: two shuffles in which each task draws the same trials give
      the same grid. */
  lemma ShuffleIndependent(s: Settings, ds: seq<real>, rs: seq<real>,
                           order1: seq<nat>, trials1: nat -> nat -> real,
                           order2: seq<nat>, trials2: nat -> nat -> real)
    requires IsPermutation(order1, |ds| * |rs|) && IsPermutation(order2, |ds| * |rs|)
    requires Distinct(ds) && Distinct(rs)
    requires forall p, q :: 0 <= p < |order1| && 0 <= q < |order2| && order1[p] == order2[q] ==>
      trials1(p) == trials2(q)
    ensures Outcome(s, ds, rs, order1, trials1) == Outcome(s, ds, rs, order2, trials2)
  {
    if |ds| > 0 && |rs| > 0 {
      var tasks := TaskGrid(s, ds, rs);
      var results1, results2 := Populations(tasks, order1, trials1), Populations(tasks, order2, trials2);
      forall i, j | 0 <= i < |ds| && 0 <= j < |rs|
        ensures Entry(results1, ds[i], rs[j]) == Entry(results2, ds[i], rs[j])
      {
        SameEntry(s, ds, rs, order1, trials1, order2, trials2, i, j);
      }
      CollatedAgree(results1, results2, ds, rs);
    }
  }

  lemma SameEntry(s: Settings, ds: seq<real>, rs: seq<real>,
                  order1: seq<nat>, trials1: nat -> nat -> real,
                  order2: seq<nat>, trials2: nat -> nat -> real, i: nat, j: nat)
    requires IsPermutation(order1, |ds| * |rs|) && IsPermutation(order2, |ds| * |rs|)
    requires Distinct(ds) && Distinct(rs) && i < |ds| && j < |rs|
    requires forall p, q :: 0 <= p < |order1| && 0 <= q < |order2| && order1[p] == order2[q] ==>
      trials1(p) == trials2(q)
    ensures Entry(Populations(TaskGrid(s, ds, rs), order1, trials1), ds[i], rs[j])
         == Entry(Populations(TaskGrid(s, ds, rs), order2, trials2), ds[i], rs[j])
  {
    EntryOfTask(s, ds, rs, order1, trials1, i, j);
    EntryOfTask(s, ds, rs, order2, trials2, i, j);
    var k := i * |rs| + j;
    var p1, p2 := PositionOf(order1, k), PositionOf(order2, k);
    assert trials1(p1) == trials2(p2);
  }

  /** many_runs: the axes are echoed back with the collated grid. */
  method ManyRuns(s: Settings, ds: seq<real>, rs: seq<real>, order: seq<nat>, trials: nat -> nat -> real)
    returns (r: Result<Sweep, SweepError>)
    requires IsPermutation(order, |ds| * |rs|)
    ensures r == Outcome(s, ds, rs, order, trials)
    ensures r.Ok? <==> |ds| > 0 && |rs| > 0
  {
    OutcomeShape(s, ds, rs, order, trials);
    if |ds| == 0 || |rs| == 0 {
      return Err(IndexError);
    }
    var tasks := BuildTasks(s, ds, rs);
    var results := Populations(tasks, order, trials);
    var grid := CollateGrid(results, ds, rs);
    match grid {
      case None => r := Err(IndexError);
      case Some(g) => r := Ok(Sweep(ds, rs, g));
    }
  }
}
