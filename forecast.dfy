/**
 * The GPA forecast: from a current GPA, the CUs behind it and a selection of
 * planned courses from the latest catalog, the best and worst case new GPA,
 * and for each honours tier the unit-weighted average grade point the new
 * courses need, with a description of that average in letter grades.
 */
module Forecast {
  import opened Wrappers
  import opened Grades
  import opened Rounding
  import opened Courses
  import opened Aggregate

  // ---- the planned courses ----

  /** The latest catalog without its zero-CU courses: what the planner offers. */
  function PlannableCourses(catalog: Catalog): (c: Catalog)
    ensures forall k :: k in c <==> k in catalog && catalog[k].cus != 0.0
    ensures forall k :: k in c ==> c[k] == catalog[k]
  {
    map k | k in catalog && catalog[k].cus != 0.0 :: catalog[k]
  }

  /** The total CUs of the selected courses. */
  function NewUnits(catalog: Catalog, selection: seq<string>): real
    requires forall k :: k in selection ==> k in catalog
  {
    if selection == [] then 0.0 else catalog[selection[0]].cus + NewUnits(catalog, selection[1..])
  }

  /**
   * When the catalog has no negative CUs, a non-empty selection of plannable
   * courses has a positive number of new CUs, so the forecast never divides
   * by zero new CUs.
   */
  lemma {:induction false} NewUnitsPositive(catalog: Catalog, selection: seq<string>)
    requires forall k :: k in catalog ==> catalog[k].cus >= 0.0
    requires forall k :: k in selection ==> k in PlannableCourses(catalog)
    ensures selection != [] ==> NewUnits(PlannableCourses(catalog), selection) > 0.0
    ensures NewUnits(PlannableCourses(catalog), selection) >= 0.0
  {
    if selection != [] {
      NewUnitsPositive(catalog, selection[1..]);
    }
  }

  // ---- the same-grade scenario ----

  /** The new GPA if every new course earns grade point gp, before rounding. */
  function MixedGpa(gp: real, gpa: real, cus: real, newCus: real): real
    requires cus + newCus != 0.0
  {
    (gpa * cus + gp * newCus) / (cus + newCus)
  }

  /** The new GPA to 4 d.p. if every new course earns grade point gp; 0 when there are no CUs at all. */
  function SameGrade(gp: real, gpa: real, cus: real, newCus: real): real
  {
    if cus + newCus > 0.0 then Round(MixedGpa(gp, gpa, cus, newCus), 4) else 0.0
  }

  /** The new GPA is a weighted mix: it lies between the current GPA and the new grade point. */
  lemma MixedBetween(gp: real, gpa: real, cus: real, newCus: real)
    requires cus >= 0.0 && newCus >= 0.0 && cus + newCus > 0.0
    ensures gpa <= gp ==> gpa <= MixedGpa(gp, gpa, cus, newCus) <= gp
    ensures gp <= gpa ==> gp <= MixedGpa(gp, gpa, cus, newCus) <= gpa
  {
    var t := cus + newCus;
    var m := MixedGpa(gp, gpa, cus, newCus);
    assert m - gpa == (gp - gpa) * (newCus / t) by {
      assert m - gpa == (gpa * cus + gp * newCus - gpa * t) / t;
    }
    assert gp - m == (gp - gpa) * (cus / t) by {
      assert gp - m == (gp * t - gpa * cus - gp * newCus) / t;
    }
    assert newCus / t >= 0.0 && cus / t >= 0.0;
  }

  /** A higher grade point on the new courses never lowers the scenario GPA. */
  lemma SameGradeMonotone(gp1: real, gp2: real, gpa: real, cus: real, newCus: real)
    requires gp1 <= gp2 && newCus >= 0.0
    ensures SameGrade(gp1, gpa, cus, newCus) <= SameGrade(gp2, gpa, cus, newCus)
  {
    var t := cus + newCus;
    if t > 0.0 {
      var m1, m2 := MixedGpa(gp1, gpa, cus, newCus), MixedGpa(gp2, gpa, cus, newCus);
      assert m2 - m1 == (gp2 - gp1) * newCus / t;
      assert (gp2 - gp1) * newCus >= 0.0;
      RoundMonotone(m1, m2, 4);
    }
  }

  /** The best case (all A+/A) is never below the worst case (all F). */
  lemma BestAtLeastWorst(gpa: real, cus: real, newCus: real)
    requires newCus >= 0.0
    ensures SameGrade(5.0, gpa, cus, newCus) >= SameGrade(0.0, gpa, cus, newCus)
  {
    SameGradeMonotone(0.0, 5.0, gpa, cus, newCus);
  }

  /** With a GPA and a grade point on the scale, the scenario GPA is on the scale. */
  lemma SameGradeInRange(gp: real, gpa: real, cus: real, newCus: real)
    requires 0.0 <= gp <= 5.0 && 0.0 <= gpa <= 5.0 && cus >= 0.0 && newCus >= 0.0
    ensures 0.0 <= SameGrade(gp, gpa, cus, newCus) <= 5.0
  {
    if cus + newCus > 0.0 {
      MixedBetween(gp, gpa, cus, newCus);
      RoundInGradeRange(MixedGpa(gp, gpa, cus, newCus), 4);
    }
  }

  // ---- the required average grade point ----

  /** The average grade point the new courses need to bring the GPA to target, before rounding. */
  function RequiredPoints(target: real, gpa: real, cus: real, newCus: real): real
    requires newCus != 0.0
  {
    (target * (cus + newCus) - gpa * cus) / newCus
  }

  /** A tier's requirement: an average grade point to 4 d.p., or "Impossible". */
  datatype Requirement = Impossible | Feasible(points: real)

  /**
   * The requirement for a target GPA. An unrounded value outside [0, 5]
   * (above the best grade or below the worst) is reported as impossible; so is
   * a division by zero new CUs, whose infinite or missing quotient fails at
   * least one of the two comparisons.
   */
  function Required(target: real, gpa: real, cus: real, newCus: real): (r: Requirement)
    ensures r.Feasible? ==> 0.0 <= r.points <= 5.0
    ensures r.Feasible? <==> newCus != 0.0 && 0.0 <= RequiredPoints(target, gpa, cus, newCus) <= 5.0
  {
    if newCus == 0.0 then Impossible
    else
      var x := RequiredPoints(target, gpa, cus, newCus);
      if x <= 5.0 && x >= 0.0 then RoundInGradeRange(x, 4); Feasible(Round(x, 4)) else Impossible
  }

  /** The requirement round trip: the unrounded required average, earned on every new course, gives exactly the target. */
  lemma RequiredRoundTrip(target: real, gpa: real, cus: real, newCus: real)
    requires newCus != 0.0 && cus + newCus != 0.0
    ensures MixedGpa(RequiredPoints(target, gpa, cus, newCus), gpa, cus, newCus) == target
  {
    var x := RequiredPoints(target, gpa, cus, newCus);
    assert x * newCus == target * (cus + newCus) - gpa * cus;
  }

  /**
   * The required average is the least that reaches the target: an average x on
   * the new courses brings the GPA to at least target exactly when x is at
   * least the required average.
   */
  lemma RequiredIsLeast(target: real, gpa: real, cus: real, newCus: real, x: real)
    requires newCus > 0.0 && cus >= 0.0
    ensures MixedGpa(x, gpa, cus, newCus) >= target <==> x >= RequiredPoints(target, gpa, cus, newCus)
  {
    var t := cus + newCus;
    var req := RequiredPoints(target, gpa, cus, newCus);
    RequiredRoundTrip(target, gpa, cus, newCus);
    assert MixedGpa(x, gpa, cus, newCus) - target == (x - req) * newCus / t by {
      assert MixedGpa(x, gpa, cus, newCus) - MixedGpa(req, gpa, cus, newCus) == (x - req) * newCus / t;
    }
    if x >= req {
      assert (x - req) * newCus >= 0.0;
    } else {
      assert (x - req) * newCus < 0.0;
    }
  }

  /** The feasible value shown is the unrounded required average to within 0.00005. */
  lemma FeasibleIsRounded(target: real, gpa: real, cus: real, newCus: real)
    requires Required(target, gpa, cus, newCus).Feasible?
    ensures var x := RequiredPoints(target, gpa, cus, newCus);
      x - 0.00005 < Required(target, gpa, cus, newCus).points <= x + 0.00005
  {
    RoundClose(RequiredPoints(target, gpa, cus, newCus), 4);
    assert Pow10(4) == 10000;
  }

  /**
   * "Impossible" covers two situations: even all A+/A on the new courses falls
   * short of the target, or even all F keeps the GPA above the target.
   */
  lemma ImpossibleCases(target: real, gpa: real, cus: real, newCus: real)
    requires newCus > 0.0 && cus >= 0.0
    requires Required(target, gpa, cus, newCus).Impossible?
    ensures MixedGpa(5.0, gpa, cus, newCus) < target || MixedGpa(0.0, gpa, cus, newCus) > target
  {
    RequiredIsLeast(target, gpa, cus, newCus, 5.0);
    var req := RequiredPoints(target, gpa, cus, newCus);
    if req < 0.0 {
      var t := cus + newCus;
      RequiredRoundTrip(target, gpa, cus, newCus);
      assert MixedGpa(0.0, gpa, cus, newCus) - target == (0.0 - req) * newCus / t by {
        assert MixedGpa(0.0, gpa, cus, newCus) - MixedGpa(req, gpa, cus, newCus) == (0.0 - req) * newCus / t;
      }
      assert (0.0 - req) * newCus > 0.0;
    }
  }

  /** A current GPA so high that the tier is secured whatever the new grades is still reported as "Impossible". */
  lemma SecuredTierReportedImpossible()
    ensures Required(2.0, 5.0, 100.0, 4.0) == Impossible
    ensures MixedGpa(0.0, 5.0, 100.0, 4.0) > 2.0
  {
    assert RequiredPoints(2.0, 5.0, 100.0, 4.0) == -73.0;
  }

  // ---- the honours tiers ----

  /** An honours tier of the forecast and the GPA it needs. */
  datatype Tier = Tier(tier: Classification, threshold: real)

  /** The honours tiers, from the highest. */
  const HonoursClasses: seq<Tier> :=
    [Tier(HighestDistinction, 4.50), Tier(Distinction, 4.00), Tier(Merit, 3.50),
     Tier(Honours, 3.00), Tier(Pass, 2.00)]

  /**
   * The forecast's thresholds are the tracker's: each is classified as its
   * tier, every lower GPA as a lower classification, and each already has 3
   * decimal places, so it survives the 3-d.p. rounding.
   */
  lemma TiersMatchClassification(i: int)
    requires 0 <= i < |HonoursClasses|
    ensures Classify(HonoursClasses[i].threshold) == HonoursClasses[i].tier
    ensures forall x :: x < HonoursClasses[i].threshold ==> Rank(Classify(x)) < Rank(HonoursClasses[i].tier)
    ensures Round(HonoursClasses[i].threshold, 3) == HonoursClasses[i].threshold
  {
    var t := HonoursClasses[i].threshold;
    assert Pow10(3) == 1000;
    var m: int := if i == 0 then 4500 else if i == 1 then 4000 else if i == 2 then 3500 else if i == 3 then 3000 else 2000;
    assert t == m as real / 1000.0;
    RoundFixed(m, 3);
  }

  /**
   * Earning at least the required average on the new courses secures the
   * tier: the new GPA, rounded to 3 d.p., is classified at that tier or above.
   */
  lemma MeetingRequirementSecuresTier(i: int, gpa: real, cus: real, newCus: real, x: real)
    requires 0 <= i < |HonoursClasses|
    requires newCus > 0.0 && cus >= 0.0
    requires x >= RequiredPoints(HonoursClasses[i].threshold, gpa, cus, newCus)
    ensures Rank(Classify(Round(MixedGpa(x, gpa, cus, newCus), 3))) >= Rank(HonoursClasses[i].tier)
  {
    var t := HonoursClasses[i].threshold;
    RequiredIsLeast(t, gpa, cus, newCus, x);
    TiersMatchClassification(i);
    RoundMonotone(t, MixedGpa(x, gpa, cus, newCus), 3);
    ClassifyMonotone(t, Round(MixedGpa(x, gpa, cus, newCus), 3));
  }

  // ---- from a grade point back to letter grades ----

  /** The description of an average grade point in letter grades. */
  datatype Description =
    | Exactly(letter: string)
    | ExactlyBetween(lower: string, upper: string)
    | Closer(lower: string, upper: string, nearer: string)
    | AtLeast(letter: string)
    | AtMost(letter: string)

  /** The sentence shown for a description. */
  function Render(d: Description): string
  {
    match d
    case Exactly(l) => "exactly " + l
    case ExactlyBetween(l, u) => "exactly between " + l + " and " + u
    case Closer(l, u, n) => "between " + l + " and " + u + ", closer to " + n
    case AtLeast(l) => "at least " + l
    case AtMost(l) => "at most " + l
  }

  function Abs(x: real): real
  {
    if x < 0.0 then -x else x
  }

  /** x lies strictly between the i-th grade point and the next lower one. */
  predicate Brackets(i: int, x: real)
  {
    0 <= i < |SortedPoints| - 1 && SortedPoints[i + 1] < x < SortedPoints[i]
  }

  /** The description of x strictly between the (i+1)-th and the i-th grade point. */
  function Between(i: int, x: real): Description
    requires Brackets(i, x)
  {
    var lower, upper := SortedPoints[i + 1], SortedPoints[i];
    SortedPointsAreSortedKeys();
    var letter1, letter2 := PointLetters[lower], PointLetters[upper];
    if Abs(x - lower) == Abs(x - upper) then ExactlyBetween(letter1, letter2)
    else Closer(letter1, letter2, if Abs(x - lower) < Abs(x - upper) then letter1 else letter2)
  }

  /**
   * What the description of x must be: the letter of a grade point; the pair
   * of letters of the grade points bracketing x; or, off the scale, the top or
   * the bottom letter.
   */
  ghost predicate Describes(x: real, d: Description)
  {
    if x in PointLetters then d == Exactly(PointLetters[x])
    else if x > 5.0 then d == AtLeast("A+/A")
    else if x < 0.0 then d == AtMost("F")
    else exists i :: Brackets(i, x) && d == Between(i, x)
  }

  /** No two adjacent pairs of grade points bracket the same value. */
  lemma BracketUnique(i: int, j: int, x: real)
    requires Brackets(i, x) && Brackets(j, x)
    ensures i == j
  {
    SortedPointsAreSortedKeys();
  }

  /** A value on the scale that is not a grade point has a bracketing pair. */
  lemma BracketExists(x: real) returns (i: int)
    requires 0.0 <= x <= 5.0 && x !in PointLetters
    ensures Brackets(i, x)
  {
    SortedPointsAreSortedKeys();
    i := 0;
    while !(SortedPoints[i + 1] < x)
      invariant 0 <= i < |SortedPoints| - 1
      invariant x < SortedPoints[i]
      decreases |SortedPoints| - i
    {
      assert x != SortedPoints[i + 1];
      i := i + 1;
    }
  }

  /** The description of a value is unique. */
  lemma DescribesUnique(x: real, d1: Description, d2: Description)
    requires Describes(x, d1) && Describes(x, d2)
    ensures d1 == d2
  {
    if x !in PointLetters && 0.0 <= x <= 5.0 {
      var i :| Brackets(i, x) && d1 == Between(i, x);
      var j :| Brackets(j, x) && d2 == Between(j, x);
      BracketUnique(i, j, x);
    }
  }

  /** The nearer end of a bracketing pair is at least as near as every grade point. */
  lemma NearerEndIsNearest(i: int, x: real, p: real)
    requires Brackets(i, x)
    requires p == if Abs(x - SortedPoints[i + 1]) < Abs(x - SortedPoints[i]) then SortedPoints[i + 1] else SortedPoints[i]
    ensures forall k :: 0 <= k < |SortedPoints| ==> Abs(x - p) <= Abs(x - SortedPoints[k])
  {
    SortedPointsAreSortedKeys();
    var lower, upper := SortedPoints[i + 1], SortedPoints[i];
    assert Abs(x - p) <= upper - x && Abs(x - p) <= x - lower;
    forall k | 0 <= k < |SortedPoints|
      ensures Abs(x - p) <= Abs(x - SortedPoints[k])
    {
      if k <= i {
        assert SortedPoints[k] >= upper;
      } else {
        assert SortedPoints[k] <= lower;
      }
    }
  }

  /** The nearer end of a bracketing pair is at least as near as every key of the reverse table. */
  lemma NearerEndIsNearestKey(i: int, x: real, p: real)
    requires Brackets(i, x)
    requires p == if Abs(x - SortedPoints[i + 1]) < Abs(x - SortedPoints[i]) then SortedPoints[i + 1] else SortedPoints[i]
    ensures p in PointLetters
    ensures forall q :: q in PointLetters ==> Abs(x - p) <= Abs(x - q)
  {
    SortedPointsAreSortedKeys();
    NearerEndIsNearest(i, x, p);
    forall q | q in PointLetters
      ensures Abs(x - p) <= Abs(x - q)
    {
      assert q in SortedPoints;
      var k :| 0 <= k < |SortedPoints| && SortedPoints[k] == q;
    }
  }

  /** The nearer letter of a "closer to" pair is the letter of the nearer end. */
  lemma NearerLetter(i: int, x: real)
    requires Brackets(i, x) && Between(i, x).Closer?
    ensures var lower, upper := SortedPoints[i + 1], SortedPoints[i];
      Between(i, x).nearer == PointLetters[if Abs(x - lower) < Abs(x - upper) then lower else upper]
  {
    SortedPointsAreSortedKeys();
  }

  /** The nearer letter of a "closer to" pair is that of the nearest of all ten grade points. */
  lemma NearerIsNearest(i: int, x: real)
    requires Brackets(i, x) && Between(i, x).Closer?
    ensures exists p :: (p in PointLetters && PointLetters[p] == Between(i, x).nearer &&
      forall q :: q in PointLetters ==> Abs(x - p) <= Abs(x - q))
  {
    var lower, upper := SortedPoints[i + 1], SortedPoints[i];
    var p := if Abs(x - lower) < Abs(x - upper) then lower else upper;
    NearerLetter(i, x);
    NearerEndIsNearestKey(i, x, p);
  }

  /**
   * On the 0 to 5 scale the description is always an exact letter, an exact
   * midpoint or a "closer to" pair; "at least" and "at most" never occur, and
   * a "closer to" letter is that of the nearest of all ten grade points.
   */
  lemma DescribesOnScale(x: real, d: Description)
    requires 0.0 <= x <= 5.0 && Describes(x, d)
    ensures d.Exactly? || d.ExactlyBetween? || d.Closer?
    ensures d.Closer? ==> exists p :: (p in PointLetters && PointLetters[p] == d.nearer &&
      forall q :: q in PointLetters ==> Abs(x - p) <= Abs(x - q))
  {
    if x !in PointLetters {
      var i :| Brackets(i, x) && d == Between(i, x);
      if d.Closer? {
        NearerIsNearest(i, x);
      }
    }
  }

  /** The letter-grade description of a required average grade point. */
  method GradeRange(x: real) returns (d: Description)
    ensures Describes(x, d)
  {
    SortedPointsAreSortedKeys();
    if x in PointLetters {
      return Exactly(PointLetters[x]);
    }
    var i := 0;
    while i < |SortedPoints| - 1
      invariant 0 <= i <= |SortedPoints| - 1
      invariant forall j :: 0 <= j < i ==> !Brackets(j, x)
    {
      var upper, lower := SortedPoints[i], SortedPoints[i + 1];
      if lower < x < upper {
        var letter1, letter2 := PointLetters[lower], PointLetters[upper];
        if Abs(x - lower) == Abs(x - upper) {
          d := ExactlyBetween(letter1, letter2);
        } else {
          var closest := if Abs(x - lower) < Abs(x - upper) then letter1 else letter2;
          d := Closer(letter1, letter2, closest);
        }
        assert d == Between(i, x);
        return;
      }
      i := i + 1;
    }
    if x >= SortedPoints[0] {
      d := AtLeast(PointLetters[SortedPoints[0]]);
    } else if x <= SortedPoints[|SortedPoints| - 1] {
      d := AtMost(PointLetters[SortedPoints[|SortedPoints| - 1]]);
    } else {
      // the program's last return, "exactly Unknown", is unreachable: a value on the scale that is not a grade point is bracketed
      var k := BracketExists(x);
      assert false;
    }
  }

  // ---- the whole forecast ----

  /** One line of the forecast: a tier, its requirement and, when feasible, its description. */
  datatype TierResult = TierResult(tier: Classification, threshold: real, requirement: Requirement, description: Option<Description>)

  /** The forecast figures. */
  datatype Scenario = Scenario(newCus: real, totalCus: real, best: real, worst: real, tiers: seq<TierResult>)

  /**
   * Get GPA Forecast for a current GPA, the CUs behind it, the latest catalog
   * and the selected course codes; nothing is forecast for an empty selection.
   */
  method RunForecast(gpa: real, cus: real, latest: Catalog, selection: seq<string>) returns (result: Option<Scenario>)
    requires forall k :: k in selection ==> k in PlannableCourses(latest)
    ensures selection == [] <==> result.None?
    ensures result.Some? ==>
      var s, newCus := result.value, NewUnits(PlannableCourses(latest), selection);
      && s.newCus == newCus
      && s.totalCus == cus + newCus
      && s.best == SameGrade(5.0, gpa, cus, newCus)
      && s.worst == SameGrade(0.0, gpa, cus, newCus)
      && |s.tiers| == |HonoursClasses|
      && forall i :: 0 <= i < |s.tiers| ==>
        && s.tiers[i].tier == HonoursClasses[i].tier
        && s.tiers[i].threshold == HonoursClasses[i].threshold
        && s.tiers[i].requirement == Required(HonoursClasses[i].threshold, gpa, cus, newCus)
        && (s.tiers[i].requirement.Impossible? <==> s.tiers[i].description.None?)
        && (s.tiers[i].requirement.Feasible? ==>
              Describes(s.tiers[i].requirement.points, s.tiers[i].description.value))
  {
    if selection == [] {
      return None;
    }
    var catalog := PlannableCourses(latest);
    var newCus := NewUnits(catalog, selection);
    var totalCus := cus + newCus;
    var best := SameGrade(5.0, gpa, cus, newCus);
    var worst := SameGrade(0.0, gpa, cus, newCus);
    var tiers: seq<TierResult> := [];
    var i := 0;
    while i < |HonoursClasses|
      invariant 0 <= i <= |HonoursClasses|
      invariant |tiers| == i
      invariant forall j :: 0 <= j < i ==>
        && tiers[j].tier == HonoursClasses[j].tier
        && tiers[j].threshold == HonoursClasses[j].threshold
        && tiers[j].requirement == Required(HonoursClasses[j].threshold, gpa, cus, newCus)
        && (tiers[j].requirement.Impossible? <==> tiers[j].description.None?)
        && (tiers[j].requirement.Feasible? ==>
              Describes(tiers[j].requirement.points, tiers[j].description.value))
    {
      var t := HonoursClasses[i];
      var req := Required(t.threshold, gpa, cus, newCus);
      var description: Option<Description> := None;
      if req.Feasible? {
        var d := GradeRange(req.points);
        description := Some(d);
      }
      tiers := tiers + [TierResult(t.tier, t.threshold, req, description)];
      i := i + 1;
    }
    return Some(Scenario(newCus, totalCus, best, worst, tiers));
  }

  // ---- worked examples ----

  /** A GPA of 4.0 over 60 CUs with one 4-CU course cannot reach Highest Distinction: 12.0 would be needed. */
  lemma ExampleHighestOutOfReach()
    ensures RequiredPoints(4.50, 4.0, 60.0, 4.0) == 12.0
    ensures Required(4.50, 4.0, 60.0, 4.0) == Impossible
  {
  }

  /** A GPA of 3.0 over 20 CUs with 4 new CUs: Merit needs 6.0, plain Honours needs exactly a B-. */
  lemma ExampleHonoursExactlyBMinus()
    ensures Required(3.50, 3.0, 20.0, 4.0) == Impossible
    ensures Required(3.00, 3.0, 20.0, 4.0) == Feasible(3.0)
    ensures Describes(3.0, Exactly("B-"))
  {
    assert RequiredPoints(3.00, 3.0, 20.0, 4.0) == 3.0;
    RoundFixed(30000, 4);
    assert Pow10(4) == 10000;
  }

  /** 3.2 lies between B- (3.0) and B (3.5) and is closer to B-. */
  lemma ExampleBetweenBMinusAndB()
    ensures Describes(3.2, Closer("B-", "B", "B-"))
  {
    SortedPointsAreSortedKeys();
    assert Brackets(3, 3.2);
    assert Between(3, 3.2) == Closer("B-", "B", "B-");
  }
}
