/** The linear scorer (src/click_rec/ranker/scorer.py): min-max per feature column, weighted sum,
    and a breakdown per candidate. */
module Scorer {
  import opened Lists
  import opened Arithmetic

  type Column = seq<Option<real>>

  datatype Feature = Bm25 | Vector | Popularity | Recency | Personal | CoClick | PriceFit

  const FEATURES: seq<Feature> := [Bm25, Vector, Popularity, Recency, Personal, CoClick, PriceFit]

  /** Where a feature stands in `FEATURES`. */
  function Position(f: Feature): (k: nat)
    ensures k < 7 && FEATURES[k] == f
  {
    match f
    case Bm25 => 0
    case Vector => 1
    case Popularity => 2
    case Recency => 3
    case Personal => 4
    case CoClick => 5
    case PriceFit => 6
  }

  datatype RankerConfig = RankerConfig(wBm25: real, wVector: real, wPopularity: real, wRecency: real,
                                       wPersonal: real, wCoClick: real, wPriceFit: real)
  {
    function Weight(f: Feature): real {
      match f
      case Bm25 => wBm25
      case Vector => wVector
      case Popularity => wPopularity
      case Recency => wRecency
      case Personal => wPersonal
      case CoClick => wCoClick
      case PriceFit => wPriceFit
    }
  }

  datatype ScoreError = MissingColumn(feature: Feature) | LengthMismatch(feature: Feature) | IndexOutOfRange
  datatype Scored = Ok(scores: seq<real>, breakdowns: seq<map<Feature, real>>) | Err(error: ScoreError)

  // ---------------------------------------------------------------- min-max

  /** `[x for x in xs if x is not None]` */
  function Reals(xs: Column): seq<real> {
    if xs == [] then []
    else
      var init := Reals(xs[..|xs| - 1]);
      match xs[|xs| - 1]
      case None => init
      case Some(x) => init + [x]
  }

  function Least(s: seq<real>): real
    requires s != []
  {
    if |s| == 1 then s[0]
    else
      var l := Least(s[..|s| - 1]);
      if s[|s| - 1] < l then s[|s| - 1] else l
  }

  function Greatest(s: seq<real>): real
    requires s != []
  {
    if |s| == 1 then s[0]
    else
      var g := Greatest(s[..|s| - 1]);
      if s[|s| - 1] > g then s[|s| - 1] else g
  }

  lemma {:induction false} ExtremesCorrect(s: seq<real>)
    requires s != []
    ensures Least(s) in s && Greatest(s) in s
    ensures forall i :: 0 <= i < |s| ==> Least(s) <= s[i] <= Greatest(s)
  {
    if |s| > 1 {
      var init := s[..|s| - 1];
      ExtremesCorrect(init);
      assert s == init + [s[|s| - 1]];
      forall i | 0 <= i < |s|
        ensures Least(s) <= s[i] <= Greatest(s)
      {
        if i < |s| - 1 {
          assert s[i] == init[i];
        }
      }
    }
  }

  function Normalise(x: Option<real>, lo: real, hi: real): real
    requires lo < hi
  {
    match x
    case None => 0.0
    case Some(v) => (v - lo) / (hi - lo)
  }

  function MinMax(xs: Column): (r: seq<real>)
    ensures |r| == |xs|
  {
    var reals := Reals(xs);
    if reals == [] then seq(|xs|, _ => 0.0)
    else if |reals| == 1 then seq(|xs|, i requires 0 <= i < |xs| => if xs[i].Some? then 1.0 else 0.0)
    else
      var lo, hi := Least(reals), Greatest(reals);
      if hi <= lo then seq(|xs|, _ => 0.0)
      else seq(|xs|, i requires 0 <= i < |xs| => Normalise(xs[i], lo, hi))
  }

  lemma {:induction false} RealsExact(xs: Column)
    ensures forall v :: v in Reals(xs) <==> Some(v) in xs
    ensures |Reals(xs)| <= |xs|
  {
    if xs != [] {
      var init := xs[..|xs| - 1];
      RealsExact(init);
      assert xs == init + [xs[|xs| - 1]];
    }
  }

  lemma NormaliseMonotone(x: real, y: real, lo: real, hi: real)
    requires lo <= x <= y <= hi && lo < hi
    ensures 0.0 <= Normalise(Some(x), lo, hi) <= Normalise(Some(y), lo, hi) <= 1.0
  {
    Quotient(x - lo, hi - lo);
    Quotient(y - lo, hi - lo);
    Quotient(y - x, hi - lo);
    assert (y - lo) / (hi - lo) == (x - lo) / (hi - lo) + (y - x) / (hi - lo);
  }

  /** Every normalised value lies in [0, 1], and a missing signal is worth 0. */
  lemma MinMaxRange(xs: Column, i: nat)
    requires i < |xs|
    ensures 0.0 <= MinMax(xs)[i] <= 1.0
    ensures xs[i] == None ==> MinMax(xs)[i] == 0.0
  {
    var reals := Reals(xs);
    RealsExact(xs);
    if |reals| > 1 && Greatest(reals) > Least(reals) && xs[i].Some? {
      ExtremesCorrect(reals);
      assert Some(xs[i].value) in xs;
      NormaliseMonotone(xs[i].value, xs[i].value, Least(reals), Greatest(reals));
    }
  }

  /** `None` ranks below every value. */
  predicate AtMost(x: Option<real>, y: Option<real>) {
    x == None || (y.Some? && x.value <= y.value)
  }

  lemma MinMaxMonotone(xs: Column, i: nat, j: nat)
    requires i < |xs| && j < |xs| && AtMost(xs[i], xs[j])
    ensures MinMax(xs)[i] <= MinMax(xs)[j]
  {
    var reals := Reals(xs);
    RealsExact(xs);
    MinMaxRange(xs, j);
    if |reals| > 1 && Greatest(reals) > Least(reals) && xs[i].Some? {
      ExtremesCorrect(reals);
      assert Some(xs[i].value) in xs && Some(xs[j].value) in xs;
      NormaliseMonotone(xs[i].value, xs[j].value, Least(reals), Greatest(reals));
    }
  }

  /** How many real values a column has: none, one at position i, or at least two. */
  lemma {:induction false} RealsCounted(xs: Column, i: nat)
    requires i < |xs| && xs[i].Some?
    ensures |Reals(xs)| == 1 <==> forall j :: 0 <= j < |xs| && j != i ==> xs[j] == None
    ensures |Reals(xs)| >= 1
  {
    var n := |xs| - 1;
    RealsNone(xs[..n]);
    if i < n {
      RealsCounted(xs[..n], i);
      assert forall j :: 0 <= j < n ==> xs[..n][j] == xs[j];
    } else if |Reals(xs)| == 1 {
      forall j | 0 <= j < n
        ensures xs[j] == None
      {
        assert xs[..n][j] == xs[j];
      }
    }
  }

  lemma {:induction false} RealsNone(xs: Column)
    ensures Reals(xs) == [] <==> forall j :: 0 <= j < |xs| ==> xs[j] == None
  {
    if xs != [] {
      var n := |xs| - 1;
      RealsNone(xs[..n]);
      assert forall j :: 0 <= j < n ==> xs[..n][j] == xs[j];
    }
  }

  /** A match that only one candidate has is itself the signal. */
  lemma LoneMatchIsOne(xs: Column, i: nat)
    requires i < |xs| && xs[i].Some? && forall j :: 0 <= j < |xs| && j != i ==> xs[j] == None
    ensures MinMax(xs)[i] == 1.0
  {
    RealsCounted(xs, i);
  }

  /** With several values, the least (at i) is worth 0, the greatest (at j) is worth 1, and the rest lie
      between them by linear interpolation; a constant column is worth nothing. */
  lemma MinMaxInterpolates(xs: Column, i: nat, j: nat, m: nat)
    requires i < |xs| && j < |xs| && m < |xs| && i != j && xs[i].Some? && xs[j].Some? && xs[m].Some?
    requires forall v: real :: Some(v) in xs ==> xs[i].value <= v <= xs[j].value
    ensures xs[i] == xs[j] ==> MinMax(xs)[m] == 0.0
    ensures xs[i] != xs[j] ==> MinMax(xs)[i] == 0.0 && MinMax(xs)[j] == 1.0
    ensures xs[i] != xs[j] ==> MinMax(xs)[m] * (xs[j].value - xs[i].value) == xs[m].value - xs[i].value
  {
    MinMaxAt(xs, i, j, i);
    MinMaxAt(xs, i, j, j);
    MinMaxAt(xs, i, j, m);
    if xs[i] != xs[j] {
      Interpolation(xs[i].value, xs[m].value, xs[j].value);
    }
  }

  lemma MinMaxAt(xs: Column, i: nat, j: nat, m: nat)
    requires i < |xs| && j < |xs| && m < |xs| && i != j && xs[i].Some? && xs[j].Some? && xs[m].Some?
    requires forall v: real :: Some(v) in xs ==> xs[i].value <= v <= xs[j].value
    ensures xs[i].value <= xs[j].value
    ensures MinMax(xs)[m] ==
            if xs[i] == xs[j] then 0.0 else Normalise(xs[m], xs[i].value, xs[j].value)
  {
    ExtremesOfColumn(xs, i, j);
  }

  lemma ExtremesOfColumn(xs: Column, i: nat, j: nat)
    requires i < |xs| && j < |xs| && i != j && xs[i].Some? && xs[j].Some?
    requires forall v: real :: Some(v) in xs ==> xs[i].value <= v <= xs[j].value
    ensures |Reals(xs)| > 1 && Least(Reals(xs)) == xs[i].value <= xs[j].value == Greatest(Reals(xs))
  {
    var reals := Reals(xs);
    RealsCounted(xs, i);
    RealsExact(xs);
    ExtremesCorrect(reals);
    assert Some(xs[i].value) in xs && Some(xs[j].value) in xs;
    assert Some(Least(reals)) in xs && Some(Greatest(reals)) in xs;
  }

  lemma Interpolation(lo: real, x: real, hi: real)
    requires lo < hi
    ensures Normalise(Some(x), lo, hi) * (hi - lo) == x - lo
    ensures Normalise(Some(lo), lo, hi) == 0.0 && Normalise(Some(hi), lo, hi) == 1.0
  {
    Quotient(0.0, hi - lo);
    Quotient(x - lo, hi - lo);
    Quotient(hi - lo, hi - lo);
  }

  function AffineReal(a: real, b: real, v: real): real {
    a * v + b
  }

  function Affine(a: real, b: real, x: Option<real>): Option<real> {
    match x
    case None => None
    case Some(v) => Some(AffineReal(a, b, v))
  }

  function Rescaled(a: real, b: real, xs: Column): (r: Column)
    ensures |r| == |xs|
  {
    seq(|xs|, i requires 0 <= i < |xs| => Affine(a, b, xs[i]))
  }

  lemma {:induction false} RealsRescaled(a: real, b: real, xs: Column)
    ensures |Reals(Rescaled(a, b, xs))| == |Reals(xs)|
    ensures forall i :: 0 <= i < |Reals(xs)| ==> Reals(Rescaled(a, b, xs))[i] == AffineReal(a, b, Reals(xs)[i])
  {
    if xs != [] {
      var n := |xs| - 1;
      RealsRescaled(a, b, xs[..n]);
      assert Rescaled(a, b, xs)[..n] == Rescaled(a, b, xs[..n]);
    }
  }

  lemma AffineOrder(a: real, b: real, x: real, y: real)
    requires a > 0.0
    ensures x <= y <==> AffineReal(a, b, x) <= AffineReal(a, b, y)
  {
    SignOfProduct(y - x, a);
    assert (y - x) * a == a * y - a * x;
  }

  lemma ExtremesMapped(f: real -> real, s: seq<real>, t: seq<real>)
    requires forall x, y :: x <= y ==> f(x) <= f(y)
    requires s != [] && |t| == |s| && forall i :: 0 <= i < |s| ==> t[i] == f(s[i])
    ensures Least(t) == f(Least(s)) && Greatest(t) == f(Greatest(s))
  {
    ExtremesCorrect(s);
    ExtremesCorrect(t);
    var i :| 0 <= i < |s| && s[i] == Least(s);
    var j :| 0 <= j < |s| && s[j] == Greatest(s);
    var i' :| 0 <= i' < |t| && t[i'] == Least(t);
    var j' :| 0 <= j' < |t| && t[j'] == Greatest(t);
    assert Least(t) <= t[i] && t[j] <= Greatest(t);
    assert Least(s) <= s[i'] && s[j'] <= Greatest(s);
  }

  lemma ExtremesRescaled(a: real, b: real, s: seq<real>, t: seq<real>)
    requires a > 0.0 && s != [] && |t| == |s|
    requires forall i :: 0 <= i < |s| ==> t[i] == AffineReal(a, b, s[i])
    ensures Least(t) == AffineReal(a, b, Least(s))
    ensures Greatest(t) == AffineReal(a, b, Greatest(s))
  {
    var f := v => AffineReal(a, b, v);
    forall x, y | x <= y
      ensures f(x) <= f(y)
    {
      AffineOrder(a, b, x, y);
    }
    ExtremesMapped(f, s, t);
  }

  lemma NormaliseAffine(a: real, b: real, x: real, lo: real, hi: real)
    requires a > 0.0 && lo < hi && AffineReal(a, b, lo) < AffineReal(a, b, hi)
    ensures Normalise(Some(AffineReal(a, b, x)), AffineReal(a, b, lo), AffineReal(a, b, hi))
         == Normalise(Some(x), lo, hi)
  {
    var q := (x - lo) / (hi - lo);
    Quotient(x - lo, hi - lo);
    var d := AffineReal(a, b, hi) - AffineReal(a, b, lo);
    assert q * d == a * (q * (hi - lo));
    assert AffineReal(a, b, x) - AffineReal(a, b, lo) == q * d;
    QuotientOfProduct(q, d);
  }

  /** A positive affine rescaling of a raw column changes no normalised value. */
  lemma MinMaxAffine(a: real, b: real, xs: Column)
    requires a > 0.0
    ensures MinMax(Rescaled(a, b, xs)) == MinMax(xs)
  {
    RealsRescaled(a, b, xs);
    var s, t := Reals(xs), Reals(Rescaled(a, b, xs));
    if |s| > 1 {
      ExtremesRescaled(a, b, s, t);
      AffineOrder(a, b, Greatest(s), Least(s));
    }
    forall i | 0 <= i < |xs|
      ensures MinMax(Rescaled(a, b, xs))[i] == MinMax(xs)[i]
    {
      if |s| > 1 && Least(s) < Greatest(s) && xs[i].Some? {
        NormaliseAffine(a, b, xs[i].value, Least(s), Greatest(s));
      }
    }
  }

  // ---------------------------------------------------------------- score

  /** The seven columns are there, each with n entries. */
  predicate Aligned(features: map<Feature, Column>, n: nat) {
    forall f: Feature :: f in features && |features[f]| == n
  }

  /** `weight * normed_col[i]` */
  function Weighted(weight: real, x: real): real {
    weight * x
  }

  function Contribution(features: map<Feature, Column>, cfg: RankerConfig, f: Feature, i: nat): real
    requires f in features && i < |features[f]|
  {
    Weighted(cfg.Weight(f), MinMax(features[f])[i])
  }

  /** Sum of the first k weighted, normalised features of candidate i. */
  function Total(features: map<Feature, Column>, cfg: RankerConfig, n: nat, k: nat, i: nat): real
    requires Aligned(features, n) && k <= 7 && i < n
  {
    if k == 0 then 0.0 else Total(features, cfg, n, k - 1, i) + Contribution(features, cfg, FEATURES[k - 1], i)
  }

  /** The breakdown of candidate i after the first k features. */
  ghost predicate IsBreakdown(b: map<Feature, real>, features: map<Feature, Column>, cfg: RankerConfig,
                              n: nat, k: nat, i: nat)
    requires Aligned(features, n) && k <= 7 && i < n
  {
    && (forall f :: f in b <==> Position(f) < k)
    && (forall f :: f in b ==> b[f] == Contribution(features, cfg, f, i))
  }

  /** `sum(breakdown.values())` */
  function BreakdownSum(b: map<Feature, real>, k: nat): real
    requires k <= 7 && forall f: Feature :: f in b
  {
    if k == 0 then 0.0 else BreakdownSum(b, k - 1) + b[FEATURES[k - 1]]
  }

  /** The result for well-formed features. */
  ghost predicate IsScored(r: Scored, features: map<Feature, Column>, cfg: RankerConfig, n: nat)
    requires Aligned(features, n)
  {
    && r.Ok?
    && |r.scores| == |r.breakdowns| == n
    && (forall i :: 0 <= i < n ==> r.scores[i] == Total(features, cfg, n, 7, i))
    && (forall i :: 0 <= i < n ==> IsBreakdown(r.breakdowns[i], features, cfg, n, 7, i))
  }

  predicate IsProduct(b: map<Feature, real>, f: Feature, weight: real, normed: seq<real>, i: nat) {
    f in b && i < |normed| && b[f] == weight * normed[i]
  }

  /** Each breakdown entry is the product of the weight and the normalised column of its own name. */
  ghost predicate IsNamedBreakdown(b: map<Feature, real>, features: map<Feature, Column>, cfg: RankerConfig,
                                   n: nat, i: nat)
    requires Aligned(features, n) && i < n
  {
    && (forall f: Feature :: f in b)
    && IsProduct(b, Bm25, cfg.wBm25, MinMax(features[Bm25]), i)
    && IsProduct(b, Vector, cfg.wVector, MinMax(features[Vector]), i)
    && IsProduct(b, Popularity, cfg.wPopularity, MinMax(features[Popularity]), i)
    && IsProduct(b, Recency, cfg.wRecency, MinMax(features[Recency]), i)
    && IsProduct(b, Personal, cfg.wPersonal, MinMax(features[Personal]), i)
    && IsProduct(b, CoClick, cfg.wCoClick, MinMax(features[CoClick]), i)
    && IsProduct(b, PriceFit, cfg.wPriceFit, MinMax(features[PriceFit]), i)
  }

  predicate IsSevenTerms(score: real, b: map<Feature, real>)
    requires forall f: Feature :: f in b
  {
    score == b[Bm25] + b[Vector] + b[Popularity] + b[Recency] + b[Personal] + b[CoClick] + b[PriceFit]
  }

  /** The score adds the seven products. */
  ghost predicate IsNamedScore(score: real, b: map<Feature, real>, features: map<Feature, Column>,
                               cfg: RankerConfig, n: nat, i: nat)
    requires Aligned(features, n) && i < n
  {
    IsNamedBreakdown(b, features, cfg, n, i) && IsSevenTerms(score, b)
  }

  ghost predicate HasNamedScores(r: Scored, features: map<Feature, Column>, cfg: RankerConfig, n: nat)
    requires Aligned(features, n) && r.Ok? && |r.scores| == |r.breakdowns| == n
  {
    forall i :: 0 <= i < n ==> IsNamedScore(r.scores[i], r.breakdowns[i], features, cfg, n, i)
  }

  lemma ScoresAreNamed(r: Scored, features: map<Feature, Column>, cfg: RankerConfig, n: nat)
    requires Aligned(features, n) && IsScored(r, features, cfg, n)
    ensures HasNamedScores(r, features, cfg, n)
  {
    forall i | 0 <= i < n
      ensures IsNamedScore(r.scores[i], r.breakdowns[i], features, cfg, n, i)
    {
      NamedBreakdown(r.breakdowns[i], features, cfg, n, i);
      ScoreIsBreakdownSum(r, features, cfg, n, i);
      SevenTerms(r.breakdowns[i]);
    }
  }

  lemma NamedBreakdown(b: map<Feature, real>, features: map<Feature, Column>, cfg: RankerConfig, n: nat, i: nat)
    requires Aligned(features, n) && i < n && IsBreakdown(b, features, cfg, n, 7, i)
    ensures IsNamedBreakdown(b, features, cfg, n, i)
  {
    OneProduct(b, features, cfg, n, i, Bm25, cfg.wBm25);
    OneProduct(b, features, cfg, n, i, Vector, cfg.wVector);
    OneProduct(b, features, cfg, n, i, Popularity, cfg.wPopularity);
    OneProduct(b, features, cfg, n, i, Recency, cfg.wRecency);
    OneProduct(b, features, cfg, n, i, Personal, cfg.wPersonal);
    OneProduct(b, features, cfg, n, i, CoClick, cfg.wCoClick);
    OneProduct(b, features, cfg, n, i, PriceFit, cfg.wPriceFit);
  }

  lemma OneProduct(b: map<Feature, real>, features: map<Feature, Column>, cfg: RankerConfig, n: nat, i: nat,
                   f: Feature, weight: real)
    requires Aligned(features, n) && i < n && IsBreakdown(b, features, cfg, n, 7, i) && weight == cfg.Weight(f)
    ensures IsProduct(b, f, weight, MinMax(features[f]), i)
  {
    assert Position(f) < 7;
    var x := MinMax(features[f])[i];
    assert b[f] == Weighted(weight, x);
    ProductOf(b, f, weight, MinMax(features[f]), i);
  }

  lemma ProductOf(b: map<Feature, real>, f: Feature, weight: real, normed: seq<real>, i: nat)
    requires f in b && i < |normed| && b[f] == Weighted(weight, normed[i])
    ensures IsProduct(b, f, weight, normed, i)
  {
  }

  lemma SevenTerms(b: map<Feature, real>)
    requires forall f: Feature :: f in b
    ensures IsSevenTerms(BreakdownSum(b, 7), b)
  {
    assert BreakdownSum(b, 1) == b[Bm25];
    assert BreakdownSum(b, 2) == BreakdownSum(b, 1) + b[Vector];
    assert BreakdownSum(b, 3) == BreakdownSum(b, 2) + b[Popularity];
    assert BreakdownSum(b, 4) == BreakdownSum(b, 3) + b[Recency];
    assert BreakdownSum(b, 5) == BreakdownSum(b, 4) + b[Personal];
    assert BreakdownSum(b, 6) == BreakdownSum(b, 5) + b[CoClick];
  }

  lemma AlignedFromList(features: map<Feature, Column>, n: nat)
    requires forall k :: 0 <= k < 7 ==> FEATURES[k] in features && |features[FEATURES[k]]| == n
    ensures Aligned(features, n)
  {
    forall f: Feature
      ensures f in features && |features[f]| == n
    {
      assert FEATURES[Position(f)] == f;
    }
  }

  /** The length check gets past the first k features: m empty columns, then columns of length n. */
  predicate Passes(features: map<Feature, Column>, k: nat, m: nat, n: nat)
    requires k <= 7
  {
    && m <= k && n > 0
    && forall j :: 0 <= j < k ==> FEATURES[j] in features && |features[FEATURES[j]]| == if j < m then 0 else n
  }

  /** Feature f is the first to break the check, by being absent. */
  ghost predicate BreaksByAbsence(features: map<Feature, Column>, f: Feature) {
    f !in features && exists m: nat, n: nat :: Passes(features, Position(f), m, n)
  }

  /** Feature f is the first to break the check, by differing from a non-empty column before it. */
  ghost predicate BreaksByLength(features: map<Feature, Column>, f: Feature) {
    f in features &&
    exists m: nat, n: nat :: Passes(features, Position(f), m, n) && m < Position(f) && |features[f]| != n
  }

  /** Some empty columns lead, and all others are equally long: the check lets that through. */
  ghost predicate LeadingEmpties(features: map<Feature, Column>) {
    exists m: nat, n: nat :: Passes(features, 7, m, n) && 0 < m < 7
  }

  /** Scoring succeeds exactly when the seven columns are there and equally long. A leading empty column
      makes the length check start over, so a longer one behind it is only noticed by the indexing. */
  method Score(features: map<Feature, Column>, cfg: RankerConfig) returns (r: Scored)
    ensures r.Ok? <==> exists n: nat :: Aligned(features, n)
    ensures forall n: nat :: Aligned(features, n) ==>
              IsScored(r, features, cfg, n) && HasNamedScores(r, features, cfg, n)
    ensures forall f :: r == Err(MissingColumn(f)) <==> BreaksByAbsence(features, f)
    ensures forall f :: r == Err(LengthMismatch(f)) <==> BreaksByLength(features, f)
    ensures r == Err(IndexOutOfRange) <==> LeadingEmpties(features)
  {
    var n: nat := 0;
    ghost var m: nat := 0;
    for k := 0 to |FEATURES|
      invariant Passes(features, k, m, if n == 0 then 1 else n)
      invariant n == 0 <==> m == k
    {
      var f := FEATURES[k];
      if f !in features {
        AbsenceDecides(features, k, m, if n == 0 then 1 else n);
        return Err(MissingColumn(f));
      }
      if n == 0 {
        n := |features[f]|;
        m := if n == 0 then k + 1 else k;
      } else if |features[f]| != n {
        LengthDecides(features, k, m, n);
        return Err(LengthMismatch(f));
      }
    }
    NoBreak(features, m, if n == 0 then 1 else n);
    if n == 0 {
      assert Aligned(features, 0);
      assert forall l: nat :: Aligned(features, l) ==> l == 0;
      return Ok([], []);
    }
    for k := 0 to |FEATURES|
      invariant forall j :: 0 <= j < k ==> |features[FEATURES[j]]| == n
    {
      if |features[FEATURES[k]]| < n {
        assert k < m;
        return Err(IndexOutOfRange);
      }
    }
    assert |features[FEATURES[0]]| == n;
    r := Accumulate(features, cfg, n);
  }

  /** Two ways to get past the same features agree. */
  lemma PassesUnique(features: map<Feature, Column>, k: nat, m: nat, n: nat, k': nat, m': nat, n': nat)
    requires k <= k' <= 7 && Passes(features, k, m, n) && Passes(features, k', m', n') && m < k
    ensures m' == m && n' == n
  {
    assert |features[FEATURES[m]]| == if m < m' then 0 else n';
    assert m' < k ==> |features[FEATURES[m']]| == if m' < m then 0 else n;
  }

  lemma AbsenceDecides(features: map<Feature, Column>, k: nat, m: nat, n: nat)
    requires k < 7 && Passes(features, k, m, n) && FEATURES[k] !in features
    ensures forall f :: BreaksByAbsence(features, f) <==> f == FEATURES[k]
    ensures forall f :: !BreaksByLength(features, f)
    ensures !LeadingEmpties(features) && forall l: nat :: !Aligned(features, l)
  {
    PositionOf(FEATURES[k], k);
    forall f
      ensures BreaksByAbsence(features, f) ==> f == FEATURES[k]
    {
      assert FEATURES[Position(f)] == f;
      assert forall m': nat, n': nat :: Passes(features, Position(f), m', n') ==> Position(f) <= k;
    }
    forall f
      ensures !BreaksByLength(features, f)
    {
      NoLengthBreak(features, k, m, n, f);
    }
  }

  /** Behind k features that pass, and with the next one absent or different, no other feature breaks by length. */
  lemma NoLengthBreak(features: map<Feature, Column>, k: nat, m: nat, n: nat, f: Feature)
    requires k <= 7 && Passes(features, k, m, n)
    requires k < 7 ==> FEATURES[k] !in features || (m < k && |features[FEATURES[k]]| != n)
    ensures BreaksByLength(features, f) ==> k < 7 && f == FEATURES[k] && f in features
  {
    var q := Position(f);
    assert FEATURES[q] == f;
    if BreaksByLength(features, f) {
      var m': nat, n': nat :| Passes(features, q, m', n') && m' < q && |features[f]| != n';
      if q < k {
        PassesUnique(features, q, m', n', k, m, n);
      } else if k < q {
        assert FEATURES[k] in features;
        PassesUnique(features, k, m, n, q, m', n');
      }
    }
  }

  lemma LengthDecides(features: map<Feature, Column>, k: nat, m: nat, n: nat)
    requires k < 7 && m < k && Passes(features, k, m, n)
    requires FEATURES[k] in features && |features[FEATURES[k]]| != n
    ensures forall f :: BreaksByLength(features, f) <==> f == FEATURES[k]
    ensures forall f :: !BreaksByAbsence(features, f)
    ensures !LeadingEmpties(features) && forall l: nat :: !Aligned(features, l)
  {
    PositionOf(FEATURES[k], k);
    forall f
      ensures BreaksByLength(features, f) ==> f == FEATURES[k]
    {
      NoLengthBreak(features, k, m, n, f);
    }
    forall f
      ensures !BreaksByAbsence(features, f)
    {
      NoAbsenceBreak(features, k, m, n, f);
    }
    if LeadingEmpties(features) {
      var m': nat, n': nat :| Passes(features, 7, m', n') && 0 < m' < 7;
      PassesUnique(features, k, m, n, 7, m', n');
    }
    DifferentLengths(features, FEATURES[m], FEATURES[k]);
  }

  lemma NoAbsenceBreak(features: map<Feature, Column>, k: nat, m: nat, n: nat, f: Feature)
    requires k <= 7 && Passes(features, k, m, n)
    requires k < 7 ==> FEATURES[k] in features && m < k && |features[FEATURES[k]]| != n
    ensures !BreaksByAbsence(features, f)
  {
    var q := Position(f);
    assert FEATURES[q] == f;
    if BreaksByAbsence(features, f) && k < q {
      var m': nat, n': nat :| Passes(features, q, m', n');
      PassesUnique(features, k, m, n, q, m', n');
    }
  }

  lemma NoBreak(features: map<Feature, Column>, m: nat, n: nat)
    requires Passes(features, 7, m, n)
    ensures forall f :: !BreaksByAbsence(features, f) && !BreaksByLength(features, f)
    ensures LeadingEmpties(features) <==> 0 < m < 7
    ensures forall l: nat :: Aligned(features, l) <==> (m == 0 && l == n) || (m == 7 && l == 0)
  {
    forall f
      ensures !BreaksByAbsence(features, f) && !BreaksByLength(features, f)
    {
      NoAbsenceBreak(features, 7, m, n, f);
      NoLengthBreak(features, 7, m, n, f);
    }
    if LeadingEmpties(features) {
      var m': nat, n': nat :| Passes(features, 7, m', n') && 0 < m' < 7;
      PassesUnique(features, 7, m', n', 7, m, n);
    }
    if m == 0 || m == 7 {
      AlignedFromList(features, if m == 0 then n else 0);
    } else {
      DifferentLengths(features, FEATURES[0], FEATURES[m]);
    }
    assert forall l: nat :: Aligned(features, l) ==> |features[FEATURES[0]]| == l;
  }

  /** A leading empty column turns the documented length error into an index error. */
  lemma EmptyBm25Slips(features: map<Feature, Column>)
    requires forall f: Feature :: f in features && |features[f]| == if f == Bm25 then 0 else 1
    ensures LeadingEmpties(features) && forall f :: !BreaksByLength(features, f)
  {
    assert Passes(features, 7, 1, 1);
    NoBreak(features, 1, 1);
  }

  lemma DifferentLengths(features: map<Feature, Column>, f: Feature, g: Feature)
    requires f in features && g in features && |features[f]| != |features[g]|
    ensures forall m: nat :: !Aligned(features, m)
  {
  }

  /** The nested loops over features and candidates. */
  method Accumulate(features: map<Feature, Column>, cfg: RankerConfig, n: nat) returns (r: Scored)
    requires Aligned(features, n)
    ensures IsScored(r, features, cfg, n) && HasNamedScores(r, features, cfg, n)
  {
    var scores := new real[n](_ => 0.0);
    var breakdowns := new map<Feature, real>[n](_ => map[]);
    for k := 0 to 7
      invariant forall i :: 0 <= i < n ==> scores[i] == Total(features, cfg, n, k, i)
      invariant forall i :: 0 <= i < n ==> breakdowns[i] == BreakdownTo(features, cfg, n, k, i)
    {
      var f := FEATURES[k];
      AddFeature(scores, breakdowns, f, cfg.Weight(f), MinMax(features[f]));
    }
    forall i | 0 <= i < n
      ensures IsBreakdown(breakdowns[i], features, cfg, n, 7, i)
    {
      BreakdownCorrect(features, cfg, n, 7, i);
    }
    r := Ok(scores[..], breakdowns[..]);
    ScoresAreNamed(r, features, cfg, n);
  }

  /** The breakdown dict of candidate i after the first k features. */
  function BreakdownTo(features: map<Feature, Column>, cfg: RankerConfig, n: nat, k: nat, i: nat): map<Feature, real>
    requires Aligned(features, n) && k <= 7 && i < n
  {
    if k == 0 then map[]
    else BreakdownTo(features, cfg, n, k - 1, i)[FEATURES[k - 1] := Contribution(features, cfg, FEATURES[k - 1], i)]
  }

  lemma {:induction false} BreakdownCorrect(features: map<Feature, Column>, cfg: RankerConfig, n: nat, k: nat, i: nat)
    requires Aligned(features, n) && k <= 7 && i < n
    ensures IsBreakdown(BreakdownTo(features, cfg, n, k, i), features, cfg, n, k, i)
  {
    if k > 0 {
      BreakdownCorrect(features, cfg, n, k - 1, i);
      var f := FEATURES[k - 1];
      forall g: Feature
        ensures Position(g) < k <==> Position(g) < k - 1 || g == f
      {
        PositionOf(g, k - 1);
      }
    }
  }

  lemma PositionOf(f: Feature, k: nat)
    requires k < 7
    ensures FEATURES[k] == f <==> Position(f) == k
  {
  }

  /** The inner loop: one feature, all candidates. */
  method AddFeature(scores: array<real>, breakdowns: array<map<Feature, real>>, f: Feature,
                    weight: real, normed: seq<real>)
    requires scores.Length == breakdowns.Length == |normed|
    modifies scores, breakdowns
    ensures forall i :: 0 <= i < |normed| ==> scores[i] == old(scores[i]) + Weighted(weight, normed[i])
    ensures forall i :: 0 <= i < |normed| ==> breakdowns[i] == old(breakdowns[i])[f := Weighted(weight, normed[i])]
  {
    for i := 0 to |normed|
      invariant forall j :: 0 <= j < i ==> scores[j] == old(scores[j]) + Weighted(weight, normed[j])
      invariant forall j :: 0 <= j < i ==> breakdowns[j] == old(breakdowns[j])[f := Weighted(weight, normed[j])]
      invariant forall j :: i <= j < |normed| ==> scores[j] == old(scores[j]) && breakdowns[j] == old(breakdowns[j])
    {
      var contrib := Weighted(weight, normed[i]);
      scores[i] := scores[i] + contrib;
      breakdowns[i] := breakdowns[i][f := contrib];
    }
  }

  // ---------------------------------------------------------------- laws

  lemma {:induction false} SumOfBreakdown(features: map<Feature, Column>, cfg: RankerConfig, n: nat,
                                          b: map<Feature, real>, k: nat, i: nat)
    requires Aligned(features, n) && k <= 7 && i < n
    requires forall f: Feature :: f in b && b[f] == Contribution(features, cfg, f, i)
    ensures BreakdownSum(b, k) == Total(features, cfg, n, k, i)
  {
    if k > 0 {
      SumOfBreakdown(features, cfg, n, b, k - 1, i);
    }
  }

  /** Each score is the sum of its breakdown, which has an entry for each of the seven features. */
  lemma ScoreIsBreakdownSum(r: Scored, features: map<Feature, Column>, cfg: RankerConfig, n: nat, i: nat)
    requires Aligned(features, n) && IsScored(r, features, cfg, n) && i < n
    ensures forall f: Feature :: f in r.breakdowns[i]
    ensures r.scores[i] == BreakdownSum(r.breakdowns[i], 7)
  {
    var b := r.breakdowns[i];
    assert IsBreakdown(b, features, cfg, n, 7, i);
    SumOfBreakdown(features, cfg, n, b, 7, i);
  }

  function WeightSum(cfg: RankerConfig, k: nat): real
    requires k <= 7
  {
    if k == 0 then 0.0 else WeightSum(cfg, k - 1) + cfg.Weight(FEATURES[k - 1])
  }

  predicate NonNegativeWeights(cfg: RankerConfig) {
    forall f: Feature :: cfg.Weight(f) >= 0.0
  }

  lemma WeightedMonotone(w: real, x: real, y: real)
    requires w >= 0.0 && x <= y
    ensures Weighted(w, x) <= Weighted(w, y)
    ensures Weighted(w, 0.0) == 0.0 && Weighted(w, 1.0) == w
  {
    assert w * (y - x) >= 0.0;
  }

  /** With non-negative weights a score lies between 0 and the sum of the weights. */
  lemma {:induction false} TotalRange(features: map<Feature, Column>, cfg: RankerConfig, n: nat, k: nat, i: nat)
    requires Aligned(features, n) && NonNegativeWeights(cfg) && k <= 7 && i < n
    ensures 0.0 <= Total(features, cfg, n, k, i) <= WeightSum(cfg, k)
  {
    if k > 0 {
      TotalRange(features, cfg, n, k - 1, i);
      var f := FEATURES[k - 1];
      MinMaxRange(features[f], i);
      WeightedMonotone(cfg.Weight(f), 0.0, MinMax(features[f])[i]);
      WeightedMonotone(cfg.Weight(f), MinMax(features[f])[i], 1.0);
    }
  }

  /** Candidate j is at least as good as candidate i in every column. */
  ghost predicate Dominates(features: map<Feature, Column>, n: nat, j: nat, i: nat)
    requires Aligned(features, n) && i < n && j < n
  {
    forall f: Feature :: AtMost(features[f][i], features[f][j])
  }

  /** A candidate at least as good in every column never scores lower. */
  lemma {:induction false} TotalMonotone(features: map<Feature, Column>, cfg: RankerConfig, n: nat,
                                         k: nat, i: nat, j: nat)
    requires Aligned(features, n) && NonNegativeWeights(cfg) && k <= 7 && i < n && j < n
    requires Dominates(features, n, j, i)
    ensures Total(features, cfg, n, k, i) <= Total(features, cfg, n, k, j)
  {
    if k > 0 {
      TotalMonotone(features, cfg, n, k - 1, i, j);
      var f := FEATURES[k - 1];
      MinMaxMonotone(features[f], i, j);
      WeightedMonotone(cfg.Weight(f), MinMax(features[f])[i], MinMax(features[f])[j]);
    }
  }

  /** Rescaling any one raw column by x -> a*x + b, a > 0, changes no score. */
  lemma {:induction false} TotalAffine(features: map<Feature, Column>, cfg: RankerConfig, n: nat,
                                       g: Feature, a: real, b: real, k: nat, i: nat)
    requires Aligned(features, n) && a > 0.0 && k <= 7 && i < n
    ensures Aligned(features[g := Rescaled(a, b, features[g])], n)
    ensures Total(features[g := Rescaled(a, b, features[g])], cfg, n, k, i) == Total(features, cfg, n, k, i)
  {
    if k > 0 {
      TotalAffine(features, cfg, n, g, a, b, k - 1, i);
      MinMaxAffine(a, b, features[g]);
    }
  }
}
