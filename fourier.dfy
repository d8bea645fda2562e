/**
 * `fourier_decomposition` and `FourierDecomposition::eval` (src/model.rs): the frequency
 * list 0, 1, -1, ..., K, -K, one discrete Fourier coefficient per frequency built by two
 * nested accumulation loops, and the stable sort by descending radius. Sine, cosine and
 * 2*pi are parameters: nothing is assumed of them except, where stated, cos 0 = 1 and
 * sin 0 = 0. Radii are compared through the squared modulus, which orders them the same
 * way because the square root is increasing.
 */
module Fourier {
  import opened Geometry

  /** The trigonometry the decomposition uses, left abstract. */
  datatype Trig = Trig(sin: real -> real, cos: real -> real, twoPi: real)

  /** The only facts about sine and cosine the centroid property needs. */
  predicate ZeroAngle(trig: Trig) {
    trig.cos(0.0) == 1.0 && trig.sin(0.0) == 0.0
  }

  /** `ComplexCoeff`: c = re + i*im at frequency `freq`. */
  datatype ComplexCoeff = ComplexCoeff(freq: int, re: real, im: real)

  /** The square of `ComplexCoeff::radius`. */
  function RadiusSq(c: ComplexCoeff): (r: real)
    ensures r >= 0.0
  {
    c.re * c.re + c.im * c.im
  }

  // ---------------------------------------------------------------- frequencies

  /** The DC term followed by the pairs k, -k for k = 1 .. K. */
  function Frequencies(maxK: nat): (r: seq<int>)
    ensures |r| == 2 * maxK + 1
  {
    if maxK == 0 then [0] else Frequencies(maxK - 1) + [maxK as int, -(maxK as int)]
  }

  /** The list reads 0, 1, -1, 2, -2, ...: frequency k sits at 2k-1 and -k at 2k. */
  lemma {:induction false} FrequencyPositions(maxK: nat)
    ensures Frequencies(maxK)[0] == 0
    ensures forall k :: 1 <= k <= maxK ==> Frequencies(maxK)[2 * k - 1] == k && Frequencies(maxK)[2 * k] == -k
  {
    if maxK > 0 {
      FrequencyPositions(maxK - 1);
      var prev := Frequencies(maxK - 1);
      assert Frequencies(maxK) == prev + [maxK as int, -(maxK as int)];
      forall k | 1 <= k <= maxK
        ensures Frequencies(maxK)[2 * k - 1] == k && Frequencies(maxK)[2 * k] == -k
      {
        if k < maxK {
          assert Frequencies(maxK)[2 * k - 1] == prev[2 * k - 1];
          assert Frequencies(maxK)[2 * k] == prev[2 * k];
        }
      }
    }
  }

  /** Every integer in [-K, K] occurs exactly once, and nothing else occurs. */
  lemma {:induction false} FrequenciesOnceEach(maxK: nat, f: int)
    ensures multiset(Frequencies(maxK))[f] == if -(maxK as int) <= f <= maxK then 1 else 0
  {
    if maxK > 0 {
      FrequenciesOnceEach(maxK - 1, f);
      assert multiset(Frequencies(maxK)) == multiset(Frequencies(maxK - 1)) + multiset{maxK as int, -(maxK as int)};
    }
  }

  // ---------------------------------------------------------------- coefficients

  /** The angle `-two_pi * k * j / n` of sample j for frequency k. */
  function Angle(trig: Trig, k: int, j: nat, n: nat): real
    requires n > 0
  {
    -trig.twoPi * k as real * j as real / n as real
  }

  /** The real part of the sum over the first m samples of z_j * e^{i * angle}. */
  function ReSum(points: seq<Point>, k: int, m: nat, trig: Trig): real
    requires 0 < |points| && m <= |points|
  {
    if m == 0 then 0.0
    else
      var a := Angle(trig, k, m - 1, |points|);
      ReSum(points, k, m - 1, trig) + (points[m - 1].x * trig.cos(a) - points[m - 1].y * trig.sin(a))
  }

  /** The imaginary part of the same sum. */
  function ImSum(points: seq<Point>, k: int, m: nat, trig: Trig): real
    requires 0 < |points| && m <= |points|
  {
    if m == 0 then 0.0
    else
      var a := Angle(trig, k, m - 1, |points|);
      ImSum(points, k, m - 1, trig) + (points[m - 1].x * trig.sin(a) + points[m - 1].y * trig.cos(a))
  }

  /** The coefficient of frequency k: both sums divided by the number of samples. */
  function Coefficient(points: seq<Point>, k: int, trig: Trig): (c: ComplexCoeff)
    requires 0 < |points|
    ensures c.freq == k
  {
    var n := |points|;
    ComplexCoeff(k, ReSum(points, k, n, trig) / n as real, ImSum(points, k, n, trig) / n as real)
  }

  /** The coefficients in generation order, before the sort. */
  function Coefficients(points: seq<Point>, freqs: seq<int>, trig: Trig): (r: seq<ComplexCoeff>)
    requires 0 < |points|
  {
    seq(|freqs|, i requires 0 <= i < |freqs| => Coefficient(points, freqs[i], trig))
  }

  /** The frequencies of a coefficient list, in order. */
  function FreqsOf(s: seq<ComplexCoeff>): (r: seq<int>)
    ensures |r| == |s|
  {
    seq(|s|, i requires 0 <= i < |s| => s[i].freq)
  }

  /** One coefficient per frequency, in the frequencies' order. */
  lemma CoefficientsFollowFrequencies(points: seq<Point>, freqs: seq<int>, trig: Trig)
    requires 0 < |points|
    ensures FreqsOf(Coefficients(points, freqs, trig)) == freqs
  {
  }

  function SumX(points: seq<Point>, m: nat): real
    requires m <= |points|
  {
    if m == 0 then 0.0 else SumX(points, m - 1) + points[m - 1].x
  }

  function SumY(points: seq<Point>, m: nat): real
    requires m <= |points|
  {
    if m == 0 then 0.0 else SumY(points, m - 1) + points[m - 1].y
  }

  /** The mean of the points. */
  function Centroid(points: seq<Point>): Point
    requires 0 < |points|
  {
    Point(SumX(points, |points|) / |points| as real, SumY(points, |points|) / |points| as real)
  }

  /** At frequency 0 every angle is 0, so the sums are plain coordinate sums. */
  lemma {:induction false} ZeroFrequencySums(points: seq<Point>, m: nat, trig: Trig)
    requires 0 < |points| && m <= |points| && ZeroAngle(trig)
    ensures ReSum(points, 0, m, trig) == SumX(points, m)
    ensures ImSum(points, 0, m, trig) == SumY(points, m)
  {
    if m > 0 {
      ZeroFrequencySums(points, m - 1, trig);
      assert Angle(trig, 0, m - 1, |points|) == 0.0;
    }
  }

  /** With cos 0 = 1 and sin 0 = 0 the DC coefficient is the centroid of the contour. */
  lemma DcTermIsCentroid(points: seq<Point>, trig: Trig)
    requires 0 < |points| && ZeroAngle(trig)
    ensures Coefficient(points, 0, trig) == ComplexCoeff(0, Centroid(points).x, Centroid(points).y)
  {
    ZeroFrequencySums(points, |points|, trig);
  }

  // ---------------------------------------------------------------- the sort

  /** Non-increasing radius along the list. */
  predicate SortedByRadius(s: seq<ComplexCoeff>) {
    forall i, j :: 0 <= i < j < |s| ==> RadiusSq(s[i]) >= RadiusSq(s[j])
  }

  /** Puts x in front of the first element whose radius is not larger than its own. */
  function Insert(x: ComplexCoeff, s: seq<ComplexCoeff>): (r: seq<ComplexCoeff>)
    ensures |r| == |s| + 1
  {
    if s == [] || RadiusSq(s[0]) <= RadiusSq(x) then [x] + s
    else [s[0]] + Insert(x, s[1..])
  }

  /** Insertion adds x and loses nothing. */
  lemma {:induction false} InsertPermutes(x: ComplexCoeff, s: seq<ComplexCoeff>)
    ensures multiset(Insert(x, s)) == multiset{x} + multiset(s)
  {
    if s != [] && RadiusSq(s[0]) > RadiusSq(x) {
      InsertPermutes(x, s[1..]);
      assert s == [s[0]] + s[1..];
    }
  }

  /** No element has a larger squared radius than b. */
  predicate AtMost(s: seq<ComplexCoeff>, b: real) {
    forall i :: 0 <= i < |s| ==> RadiusSq(s[i]) <= b
  }

  lemma {:induction false} InsertAtMost(x: ComplexCoeff, s: seq<ComplexCoeff>, b: real)
    requires AtMost(s, b) && RadiusSq(x) <= b
    ensures AtMost(Insert(x, s), b)
  {
    if s != [] && RadiusSq(s[0]) > RadiusSq(x) {
      InsertAtMost(x, s[1..], b);
      var r := [s[0]] + Insert(x, s[1..]);
      assert forall i :: 1 <= i < |r| ==> r[i] == Insert(x, s[1..])[i - 1];
    }
  }

  /** An element at least as large as a sorted list's elements can go in front. */
  lemma SortedCons(c: ComplexCoeff, t: seq<ComplexCoeff>)
    requires SortedByRadius(t) && AtMost(t, RadiusSq(c))
    ensures SortedByRadius([c] + t)
  {
    var r := [c] + t;
    forall i, j | 0 <= i < j < |r|
      ensures RadiusSq(r[i]) >= RadiusSq(r[j])
    {
      assert r[j] == t[j - 1];
      if i > 0 {
        assert r[i] == t[i - 1];
      }
    }
  }

  /** The tail of a sorted list is sorted and bounded by the head. */
  lemma SortedTail(s: seq<ComplexCoeff>)
    requires SortedByRadius(s) && s != []
    ensures SortedByRadius(s[1..]) && AtMost(s[1..], RadiusSq(s[0]))
  {
    assert forall i :: 0 <= i < |s[1..]| ==> s[1..][i] == s[i + 1];
  }

  /** Inserting into a sorted list keeps it sorted. */
  lemma {:induction false} InsertSorted(x: ComplexCoeff, s: seq<ComplexCoeff>)
    requires SortedByRadius(s)
    ensures SortedByRadius(Insert(x, s))
  {
    if s == [] || RadiusSq(s[0]) <= RadiusSq(x) {
      if s != [] {
        SortedTail(s);
        assert AtMost(s, RadiusSq(x)) by {
          assert forall i :: 1 <= i < |s| ==> s[i] == s[1..][i - 1];
        }
      }
      SortedCons(x, s);
    } else {
      SortedTail(s);
      InsertSorted(x, s[1..]);
      InsertAtMost(x, s[1..], RadiusSq(s[0]));
      SortedCons(s[0], Insert(x, s[1..]));
    }
  }

  /**
   * The stable sort by descending radius of `sort_by(|a, b| b.radius().partial_cmp(&a.radius()))`:
   * insertion of each element in front of the sorted rest keeps ties in their original order.
   */
  function SortDesc(s: seq<ComplexCoeff>): (r: seq<ComplexCoeff>)
    ensures |r| == |s|
    ensures multiset(r) == multiset(s)
  {
    if s == [] then []
    else
      assert s == [s[0]] + s[1..];
      InsertPermutes(s[0], SortDesc(s[1..]));
      Insert(s[0], SortDesc(s[1..]))
  }

  /** The result of the sort has non-increasing radius. */
  lemma {:induction false} SortDescSorted(s: seq<ComplexCoeff>)
    ensures SortedByRadius(SortDesc(s))
  {
    if s != [] {
      SortDescSorted(s[1..]);
      InsertSorted(s[0], SortDesc(s[1..]));
    }
  }

  /** The elements of s with squared radius v, in order. */
  function WithRadius(s: seq<ComplexCoeff>, v: real): seq<ComplexCoeff>
  {
    if s == [] then []
    else (if RadiusSq(s[0]) == v then [s[0]] else []) + WithRadius(s[1..], v)
  }

  /** The selection holds elements of s of squared radius v only. */
  lemma {:induction false} WithRadiusMembers(s: seq<ComplexCoeff>, v: real)
    ensures forall c :: c in WithRadius(s, v) ==> c in s && RadiusSq(c) == v
  {
    if s != [] {
      WithRadiusMembers(s[1..], v);
    }
  }

  lemma WithRadiusCons(c: ComplexCoeff, t: seq<ComplexCoeff>, v: real)
    ensures WithRadius([c] + t, v) == (if RadiusSq(c) == v then [c] else []) + WithRadius(t, v)
  {
    assert ([c] + t)[0] == c && ([c] + t)[1..] == t;
  }

  lemma {:induction false} InsertKeepsTies(x: ComplexCoeff, s: seq<ComplexCoeff>, v: real)
    ensures WithRadius(Insert(x, s), v) == (if RadiusSq(x) == v then [x] else []) + WithRadius(s, v)
  {
    if s == [] || RadiusSq(s[0]) <= RadiusSq(x) {
      WithRadiusCons(x, s, v);
    } else {
      var rest := Insert(x, s[1..]);
      InsertKeepsTies(x, s[1..], v);
      WithRadiusCons(s[0], rest, v);
      WithRadiusCons(s[0], s[1..], v);
      assert [s[0]] + s[1..] == s;
      var w := WithRadius(s[1..], v);
      if RadiusSq(x) == v {
        assert RadiusSq(s[0]) != v;
        assert WithRadius(Insert(x, s), v) == [x] + w;
      } else if RadiusSq(s[0]) == v {
        assert WithRadius(Insert(x, s), v) == [s[0]] + w;
      } else {
        assert WithRadius(Insert(x, s), v) == w;
      }
    }
  }

  /** Stability: the coefficients of any one radius keep their generation order. */
  lemma {:induction false} SortIsStable(s: seq<ComplexCoeff>, v: real)
    ensures WithRadius(SortDesc(s), v) == WithRadius(s, v)
  {
    if s != [] {
      SortIsStable(s[1..], v);
      InsertKeepsTies(s[0], SortDesc(s[1..]), v);
    }
  }

  lemma FreqsOfCons(c: ComplexCoeff, s: seq<ComplexCoeff>)
    ensures FreqsOf([c] + s) == [c.freq] + FreqsOf(s)
  {
  }

  /** Permuting coefficients permutes their frequencies. */
  lemma {:induction false} InsertFreqs(x: ComplexCoeff, s: seq<ComplexCoeff>)
    ensures multiset(FreqsOf(Insert(x, s))) == multiset{x.freq} + multiset(FreqsOf(s))
  {
    if s == [] || RadiusSq(s[0]) <= RadiusSq(x) {
      FreqsOfCons(x, s);
    } else {
      var rest := Insert(x, s[1..]);
      InsertFreqs(x, s[1..]);
      FreqsOfCons(s[0], rest);
      FreqsOfCons(s[0], s[1..]);
      assert [s[0]] + s[1..] == s;
    }
  }

  lemma {:induction false} SortFreqs(s: seq<ComplexCoeff>)
    ensures multiset(FreqsOf(SortDesc(s))) == multiset(FreqsOf(s))
  {
    if s != [] {
      SortFreqs(s[1..]);
      InsertFreqs(s[0], SortDesc(s[1..]));
      FreqsOfCons(s[0], s[1..]);
      assert [s[0]] + s[1..] == s;
    }
  }

  /** The decomposition as a value: coefficients of the listed frequencies, sorted. */
  function Decomposition(points: seq<Point>, numTerms: nat, trig: Trig): seq<ComplexCoeff>
    requires 0 < |points|
  {
    SortDesc(Coefficients(points, Frequencies(numTerms), trig))
  }

  /** `fourier_decomposition`, step by step. */
  method FourierDecomposition(points: seq<Point>, numTerms: nat, trig: Trig) returns (coeffs: seq<ComplexCoeff>)
    requires 0 < |points|
    ensures coeffs == Decomposition(points, numTerms, trig)
    ensures |coeffs| == 2 * numTerms + 1
  {
    var n := |points|;
    var freqs: seq<int> := [0];
    for k := 1 to numTerms + 1
      invariant freqs == Frequencies(k - 1)
    {
      freqs := freqs + [k, -k];
    }
    coeffs := [];
    for f := 0 to |freqs|
      invariant coeffs == Coefficients(points, freqs[..f], trig)
    {
      var k := freqs[f];
      var re := 0.0;
      var im := 0.0;
      for j := 0 to n
        invariant re == ReSum(points, k, j, trig) && im == ImSum(points, k, j, trig)
      {
        var angle := Angle(trig, k, j, n);
        re := re + (points[j].x * trig.cos(angle) - points[j].y * trig.sin(angle));
        im := im + (points[j].x * trig.sin(angle) + points[j].y * trig.cos(angle));
      }
      re := re / n as real;
      im := im / n as real;
      CoefficientsSnoc(points, freqs, f, trig);
      coeffs := coeffs + [ComplexCoeff(k, re, im)];
    }
    assert freqs[..|freqs|] == freqs;
    coeffs := SortDesc(coeffs);
  }

  lemma CoefficientsSnoc(points: seq<Point>, freqs: seq<int>, f: nat, trig: Trig)
    requires 0 < |points| && f < |freqs|
    ensures Coefficients(points, freqs[..f + 1], trig)
         == Coefficients(points, freqs[..f], trig) + [Coefficient(points, freqs[f], trig)]
  {
  }

  /** The result is sorted, and holds the computed coefficients, each once. */
  lemma DecompositionIsSortedPermutation(points: seq<Point>, numTerms: nat, trig: Trig)
    requires 0 < |points|
    ensures SortedByRadius(Decomposition(points, numTerms, trig))
    ensures multiset(Decomposition(points, numTerms, trig))
         == multiset(Coefficients(points, Frequencies(numTerms), trig))
  {
    SortDescSorted(Coefficients(points, Frequencies(numTerms), trig));
  }

  /** Every frequency in [-K, K] has exactly one coefficient in the result, and no other does. */
  lemma OneCoefficientPerFrequency(points: seq<Point>, numTerms: nat, trig: Trig, f: int)
    requires 0 < |points|
    ensures multiset(FreqsOf(Decomposition(points, numTerms, trig)))[f]
         == if -(numTerms as int) <= f <= numTerms then 1 else 0
  {
    var unsorted := Coefficients(points, Frequencies(numTerms), trig);
    SortFreqs(unsorted);
    CoefficientsFollowFrequencies(points, Frequencies(numTerms), trig);
    FrequenciesOnceEach(numTerms, f);
  }

  // ---------------------------------------------------------------- evaluation

  /** The contribution of one coefficient at time t: c * e^{i * 2 pi * freq * t}. */
  function Term(c: ComplexCoeff, t: real, trig: Trig): Point {
    var angle := trig.twoPi * c.freq as real * t;
    Point(c.re * trig.cos(angle) - c.im * trig.sin(angle), c.im * trig.cos(angle) + c.re * trig.sin(angle))
  }

  /** The sum of the terms of the first m coefficients. */
  function EvalSum(coeffs: seq<ComplexCoeff>, t: real, trig: Trig): Point {
    if coeffs == [] then Origin
    else Add(EvalSum(coeffs[..|coeffs| - 1], t, trig), Term(coeffs[|coeffs| - 1], t, trig))
  }

  /** `FourierDecomposition::eval`. */
  method Eval(coeffs: seq<ComplexCoeff>, t: real, trig: Trig) returns (p: Point)
    ensures p == EvalSum(coeffs, t, trig)
  {
    var x := 0.0;
    var y := 0.0;
    for i := 0 to |coeffs|
      invariant Point(x, y) == EvalSum(coeffs[..i], t, trig)
    {
      var c := coeffs[i];
      assert coeffs[..i + 1][..i] == coeffs[..i];
      assert EvalSum(coeffs[..i + 1], t, trig) == Add(EvalSum(coeffs[..i], t, trig), Term(c, t, trig));
      var term := Term(c, t, trig);
      x := x + term.x;
      y := y + term.y;
    }
    assert coeffs[..|coeffs|] == coeffs;
    p := Point(x, y);
  }

  lemma {:induction false} EvalSumCons(c: ComplexCoeff, s: seq<ComplexCoeff>, t: real, trig: Trig)
    ensures EvalSum([c] + s, t, trig) == Add(Term(c, t, trig), EvalSum(s, t, trig))
    decreases |s|
  {
    if s == [] {
      assert ([c] + s)[..0] == [];
    } else {
      var init := s[..|s| - 1];
      EvalSumCons(c, init, t, trig);
      assert ([c] + s)[..|s|] == [c] + init;
    }
  }

  lemma {:induction false} InsertKeepsSum(x: ComplexCoeff, s: seq<ComplexCoeff>, t: real, trig: Trig)
    ensures EvalSum(Insert(x, s), t, trig) == Add(Term(x, t, trig), EvalSum(s, t, trig))
  {
    if s == [] || RadiusSq(s[0]) <= RadiusSq(x) {
      EvalSumCons(x, s, t, trig);
    } else {
      InsertKeepsSum(x, s[1..], t, trig);
      EvalSumCons(s[0], Insert(x, s[1..]), t, trig);
      EvalSumCons(s[0], s[1..], t, trig);
      assert [s[0]] + s[1..] == s;
    }
  }

  /** Sorting the coefficients does not move the traced point (with exact arithmetic). */
  lemma {:induction false} SortKeepsSum(s: seq<ComplexCoeff>, t: real, trig: Trig)
    ensures EvalSum(SortDesc(s), t, trig) == EvalSum(s, t, trig)
  {
    if s != [] {
      SortKeepsSum(s[1..], t, trig);
      InsertKeepsSum(s[0], SortDesc(s[1..]), t, trig);
      EvalSumCons(s[0], s[1..], t, trig);
      assert [s[0]] + s[1..] == s;
    }
  }
}
