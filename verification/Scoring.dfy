/** The dynamic score of backend/src/alpha/services.py, over exact rationals: the value
    initial - (initial - minimum) * n^2 / decay^2 is the fraction Numerator / (decay * decay). */
module Scoring {
  import opened Basics

  datatype Kind = Fixed | Dynamic

  /** The four scoring columns of a challenge; update and import refuse minimum > initial. */
  datatype Scoring = Scoring(kind: Kind, initial: int, minimum: int, decay: int) {
    predicate Valid() {
      1 <= minimum <= initial && 1 <= decay
    }
  }

  /** What the table can hold: its CHECK constraints, and the comparison made by every write path. */
  type Parameters = s: Scoring | s.Valid() witness Scoring(Fixed, 1, 1, 1)

  /** How an exact half is rounded: Python and PostgreSQL go to the even neighbour, SQLite away from zero. */
  datatype TieRule = HalfEven | HalfAway

  /** Rounds p / q to the nearest integer. Dafny's / and % floor because q is positive. */
  function Round(p: int, q: int, ties: TieRule): (r: int)
    requires q > 0
    ensures -q <= 2 * (q * r - p) <= q
  {
    var f := p / q;
    assert p == q * f + p % q;
    assert q * (f + 1) == q * f + q;
    if 2 * (p % q) < q then f
    else if 2 * (p % q) > q then f + 1
    else match ties
      case HalfEven => if f % 2 == 0 then f else f + 1
      case HalfAway => if p >= 0 then f + 1 else f
  }

  function Numerator(s: Scoring, n: int): int {
    s.initial * (s.decay * s.decay) - (s.initial - s.minimum) * (n * n)
  }

  /** dynamic_points */
  function DynamicPoints(s: Scoring, n: int): int
    requires s.decay > 0
  {
    if n <= 0 then s.initial
    else Max(s.minimum, Round(Numerator(s, n), s.decay * s.decay, HalfEven))
  }

  /** challenge_points */
  function ChallengePoints(s: Scoring, n: int): int
    requires s.decay > 0
  {
    if s.kind == Fixed then s.initial else DynamicPoints(s, n)
  }

  /** The CASE expression of the scoreboard query, evaluated only for challenges with a visible solve. */
  function SqlPoints(s: Scoring, n: int, ties: TieRule): int
    requires s.decay > 0
  {
    if s.kind == Fixed then s.initial
    else
      var rounded := Round(Numerator(s, n), s.decay * s.decay, ties);
      if rounded < s.minimum then s.minimum else rounded
  }

  /** The value sits exactly halfway between two integers. */
  predicate ExactTie(s: Scoring, n: int)
    requires s.decay > 0
  {
    2 * (Numerator(s, n) % (s.decay * s.decay)) == s.decay * s.decay
  }

  // ---------- rounding ----------

  lemma RoundExact(q: int, r: int, p: int, ties: TieRule)
    requires q > 0 && p == q * r
    ensures Round(p, q, ties) == r
  {
    var x := Round(p, q, ties);
    if x != r {
      assert q * x - p == q * (x - r);
      if x > r { MulAtLeast(q, x - r); } else { MulAtLeast(q, r - x); }
    }
  }

  lemma MulAtLeast(q: int, k: int)
    requires q > 0 && k >= 1
    ensures q * k >= q
  {
  }

  lemma RoundMonotone(p1: int, p2: int, q: int, ties: TieRule)
    requires q > 0 && p1 <= p2
    ensures Round(p1, q, ties) <= Round(p2, q, ties)
  {
    var r1, r2 := Round(p1, q, ties), Round(p2, q, ties);
    assert q * (r1 - r2) == q * r1 - q * r2;
    if r1 > r2 && p1 < p2 { MulAtLeast(q, r1 - r2); }
  }

  lemma SquareMonotone(m: int, n: int)
    requires 0 <= m <= n
    ensures m * m <= n * n
  {
  }

  lemma ScaleMonotone(k: int, a: int, b: int)
    requires 0 <= k && a <= b
    ensures k * a <= k * b
  {
  }

  lemma NumeratorMonotone(s: Scoring, m: int, n: int)
    requires s.minimum <= s.initial && 0 <= m <= n
    ensures Numerator(s, n) <= Numerator(s, m)
  {
    SquareMonotone(m, n);
    ScaleMonotone(s.initial - s.minimum, m * m, n * n);
  }

  lemma NumeratorEnds(s: Scoring)
    ensures Numerator(s, 0) == (s.decay * s.decay) * s.initial
    ensures Numerator(s, s.decay) == (s.decay * s.decay) * s.minimum
  {
    var d := s.decay * s.decay;
    assert Numerator(s, s.decay) == s.initial * d - (s.initial - s.minimum) * d;
    assert (s.initial - s.minimum) * d == s.initial * d - s.minimum * d;
  }

  // ---------- the laws of the dynamic score ----------

  /** More solves never raise the score. */
  lemma PointsNonIncreasing(s: Scoring, m: int, n: int)
    requires s.Valid() && m <= n
    ensures ChallengePoints(s, n) <= ChallengePoints(s, m)
  {
    var q := s.decay * s.decay;
    if s.kind == Dynamic && n > 0 {
      var m' := Max(m, 0);
      NumeratorMonotone(s, m', n);
      RoundMonotone(Numerator(s, n), Numerator(s, m'), q, HalfEven);
      if m <= 0 {
        NumeratorEnds(s);
        RoundExact(q, s.initial, Numerator(s, 0), HalfEven);
      }
    }
  }

  /** The score starts at initial, stays within [minimum, initial] and is minimum from decay solves on. */
  lemma DynamicRange(s: Scoring, n: int)
    requires s.Valid()
    ensures s.minimum <= DynamicPoints(s, n) <= s.initial
    ensures n <= 0 ==> DynamicPoints(s, n) == s.initial
    ensures n >= s.decay ==> DynamicPoints(s, n) == s.minimum
  {
    var q := s.decay * s.decay;
    NumeratorEnds(s);
    if n > 0 {
      NumeratorMonotone(s, 0, n);
      RoundMonotone(Numerator(s, n), Numerator(s, 0), q, HalfEven);
      RoundExact(q, s.initial, Numerator(s, 0), HalfEven);
      if n >= s.decay {
        NumeratorMonotone(s, s.decay, n);
        RoundMonotone(Numerator(s, n), Numerator(s, s.decay), q, HalfEven);
        RoundExact(q, s.minimum, Numerator(s, s.decay), HalfEven);
      }
    }
  }

  // ---------- the curve between the ends ----------

  /** p is a whole number nearest to initial - (initial - minimum) * n^2 / decay^2, and an even one where two are
      equally near. */
  predicate OnCurve(s: Scoring, n: int, p: int) {
    var d := s.decay * s.decay;
    var gap := 2 * (d * (s.initial - p) - (s.initial - s.minimum) * n * n);
    -d <= gap <= d && (gap == -d || gap == d ==> p % 2 == 0)
  }

  lemma RoundTieIsEven(p: int, q: int)
    requires q > 0
    ensures var r := Round(p, q, HalfEven); 2 * (q * r - p) == q || 2 * (q * r - p) == -q ==> r % 2 == 0
  {
    var f := p / q;
    assert p == q * f + p % q;
    assert q * (f + 1) == q * f + q;
  }

  lemma GapOfRound(s: Scoring, n: int, r: int)
    ensures var d := s.decay * s.decay;
            2 * (d * (s.initial - r) - (s.initial - s.minimum) * n * n) == -2 * (d * r - Numerator(s, n))
  {
    var d := s.decay * s.decay;
    assert d * (s.initial - r) == s.initial * d - d * r;
    assert (s.initial - s.minimum) * n * n == (s.initial - s.minimum) * (n * n);
  }

  /** Two whole numbers cannot both be on the curve: a step apart they would both be ties, and one of them odd. */
  lemma CurveIsSteep(s: Scoring, n: int, p: int, q: int)
    requires s.decay > 0 && OnCurve(s, n, p) && OnCurve(s, n, q)
    ensures p == q
  {
    var d := s.decay * s.decay;
    assert d * (s.initial - p) - d * (s.initial - q) == d * (q - p);
    if p != q {
      MulAtLeast(d, if p < q then q - p else p - q);
      if q - p >= 2 { assert d * (q - p) == d * (q - p - 1) + d; MulAtLeast(d, q - p - 1); }
      if p - q >= 2 { assert d * (p - q) == d * (p - q - 1) + d; MulAtLeast(d, p - q - 1); }
    }
  }

  /** From the first solve to the last that still lowers it, the dynamic score is the point of the curve. */
  lemma DynamicCurve(s: Scoring, n: int, p: int)
    requires s.Valid() && 1 <= n <= s.decay
    ensures p == DynamicPoints(s, n) <==> OnCurve(s, n, p)
  {
    var d := s.decay * s.decay;
    var r := Round(Numerator(s, n), d, HalfEven);
    NumeratorEnds(s);
    NumeratorMonotone(s, n, s.decay);
    RoundMonotone(Numerator(s, s.decay), Numerator(s, n), d, HalfEven);
    RoundExact(d, s.minimum, Numerator(s, s.decay), HalfEven);
    RoundTieIsEven(Numerator(s, n), d);
    GapOfRound(s, n, r);
    assert OnCurve(s, n, r);
    if OnCurve(s, n, p) { CurveIsSteep(s, n, p, r); }
  }

  /** What the k-th solve of a challenge is worth, read off its scoring columns. */
  predicate FairPrice(s: Scoring, k: int, points: int) {
    match s.kind
    case Fixed => points == s.initial
    case Dynamic =>
      if 1 <= k <= s.decay then OnCurve(s, k, points)
      else points == if k < 1 then s.initial else s.minimum
  }

  lemma PointsAreFair(s: Scoring, k: int)
    requires s.Valid()
    ensures FairPrice(s, k, ChallengePoints(s, k))
  {
    if s.kind == Dynamic {
      if 1 <= k <= s.decay { DynamicCurve(s, k, DynamicPoints(s, k)); }
      DynamicRange(s, k);
    }
  }

  /** The query's expression is the Python function wherever the query evaluates it. A back end that
      rounds halves away from zero is off by one, and exactly when the value is an even number plus a
      half that the minimum does not hide. */
  lemma SqlAgreesWithPython(s: Scoring, n: int)
    requires s.Valid() && n >= 1
    ensures SqlPoints(s, n, HalfEven) == ChallengePoints(s, n)
    ensures 0 <= SqlPoints(s, n, HalfAway) - ChallengePoints(s, n) <= 1
    ensures SqlPoints(s, n, HalfAway) != ChallengePoints(s, n)
            <==> s.kind == Dynamic && ExactTie(s, n)
                 && (Numerator(s, n) / (s.decay * s.decay)) % 2 == 0
                 && Numerator(s, n) / (s.decay * s.decay) >= s.minimum
  {
    var p, q := Numerator(s, n), s.decay * s.decay;
    assert p == q * (p / q) + p % q;
    if p < 0 {
      FloorNegative(p, q);
    } else {
      FloorNonNegative(p, q);
    }
  }

  lemma FloorNegative(p: int, q: int)
    requires q > 0 && p < 0
    ensures p / q <= -1
  {
  }

  lemma FloorNonNegative(p: int, q: int)
    requires q > 0 && p >= 0
    ensures p / q >= 0
  {
  }

  /** The off-by-one is real: the first solve of a challenge scored 3, 1, 2 is worth 3 - 2 * 1 / 4 = 2.5. */
  lemma SqlTieDiffers()
    ensures exists s: Scoring, n: int :: s.Valid() && n >= 1 && SqlPoints(s, n, HalfAway) != ChallengePoints(s, n)
  {
    var s := Scoring(Dynamic, 3, 1, 2);
    assert Numerator(s, 1) == 10;
    assert Round(10, 4, HalfEven) == 2 && Round(10, 4, HalfAway) == 3;
    assert s.Valid() && SqlPoints(s, 1, HalfAway) == 3 && ChallengePoints(s, 1) == 2;
  }
}
