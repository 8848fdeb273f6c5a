/**
 * The analysis of the tracker's rows: the CU-weighted GPA over the rows with
 * a grade point, its 3-d.p. value and degree classification, its 4-d.p.
 * display value, the CUs used for the GPA, the CUs completed successfully
 * and the number of courses in each reporting category.
 */
module Aggregate {
  import opened Wrappers
  import opened Grades
  import opened Rounding
  import opened Courses

  /** The sets of rows the analysis sums or counts over. */
  datatype Bucket =
    | Any                // every row
    | Counted            // rows that survive dropping missing values: used for the GPA
    | SatisfactoryUnsat  // S or U
    | CompletedOrOverseas   // CS, CU, OVS or OVU
    | Unresolved         // EXE, IC, OVI, IP or W
    | NotCompleted       // U, CU, OVU, OVI, IC, IP or W
    | Completed          // every row not in NotCompleted

  /**
   * Membership of a row in a bucket. The grade is read as a category of the
   * grade table and the year as a category of allAY, so an unknown label is a
   * missing value, and a row with any missing value is not counted.
   */
  predicate InBucket(r: Row, b: Bucket, allAY: seq<string>)
  {
    var g := ParseGrade(r.grade);
    match b
    case Any => true
    case Counted => g.Some? && r.points.Some? && r.ay in allAY
    case SatisfactoryUnsat => g.Some? && IsSatisfactoryUnsat(g.value)
    case CompletedOrOverseas => g.Some? && IsCompletedOrOverseas(g.value)
    case Unresolved => g.Some? && IsUnresolved(g.value)
    case NotCompleted => g.Some? && IsNotCompleted(g.value)
    case Completed => !(g.Some? && IsNotCompleted(g.value))
  }

  /** The number of rows in bucket b. */
  function Count(rows: seq<Row>, b: Bucket, allAY: seq<string>): nat
  {
    if rows == [] then 0
    else (if InBucket(rows[0], b, allAY) then 1 else 0) + Count(rows[1..], b, allAY)
  }

  /** The sum of the CUs of the rows in bucket b. */
  function Units(rows: seq<Row>, b: Bucket, allAY: seq<string>): real
  {
    if rows == [] then 0.0
    else (if InBucket(rows[0], b, allAY) then rows[0].cus else 0.0) + Units(rows[1..], b, allAY)
  }

  /** A row's CUs times its grade points when it is counted, else nothing. */
  function Weight(r: Row, allAY: seq<string>): real
  {
    if InBucket(r, Counted, allAY) then r.cus * r.points.value else 0.0
  }

  /** The sum of CUs times grade points over the counted rows. */
  function WeightedPoints(rows: seq<Row>, allAY: seq<string>): real
  {
    if rows == [] then 0.0 else Weight(rows[0], allAY) + WeightedPoints(rows[1..], allAY)
  }

  /** The degree classifications, from the lowest to the highest. */
  datatype Classification =
    | BelowGraduationThreshold | Pass | Honours | Merit | Distinction | HighestDistinction

  /** The text shown for a classification. */
  function Label(c: Classification): string
  {
    match c
    case HighestDistinction => "Honours (Highest Distinction)"
    case Distinction => "Honours (Distinction)"
    case Merit => "Honours (Merit)"
    case Honours => "Honours"
    case Pass => "Pass"
    case BelowGraduationThreshold => "Below Graduation Threshold"
  }

  /** The position of a classification in the order of the honours tiers. */
  function Rank(c: Classification): nat
  {
    match c
    case BelowGraduationThreshold => 0
    case Pass => 1
    case Honours => 2
    case Merit => 3
    case Distinction => 4
    case HighestDistinction => 5
  }

  /** The degree classification of a 3-d.p. GPA: thresholds tried from the top, closed below. */
  function Classify(gpa: real): Classification
  {
    if gpa >= 4.50 then HighestDistinction
    else if gpa >= 4.00 then Distinction
    else if gpa >= 3.50 then Merit
    else if gpa >= 3.00 then Honours
    else if gpa >= 2.00 then Pass
    else BelowGraduationThreshold
  }

  /** The least GPA of each classification above the lowest. */
  function Threshold(c: Classification): real
    requires c != BelowGraduationThreshold
  {
    match c
    case HighestDistinction => 4.50
    case Distinction => 4.00
    case Merit => 3.50
    case Honours => 3.00
    case Pass => 2.00
  }

  /** A GPA reaches a classification when it is at least that classification's threshold. */
  predicate Reaches(gpa: real, c: Classification)
  {
    c == BelowGraduationThreshold || gpa >= Threshold(c)
  }

  /**
   * The first threshold met from the top is the highest classification the
   * GPA reaches: thresholds are closed lower bounds.
   */
  lemma ClassifyIsHighestReached(gpa: real)
    ensures Reaches(gpa, Classify(gpa))
    ensures forall c :: Reaches(gpa, c) ==> Rank(c) <= Rank(Classify(gpa))
  {
  }

  /** A higher GPA never gives a lower classification. */
  lemma ClassifyMonotone(x: real, y: real)
    requires x <= y
    ensures Rank(Classify(x)) <= Rank(Classify(y))
  {
  }

  /**
   * The text shown names the classification: different classifications are
   * shown differently, and the text starts with "Honours" exactly for the
   * honours tiers.
   */
  lemma LabelNamesClassification(c: Classification, e: Classification)
    ensures Label(c) == Label(e) <==> c == e
    ensures |Label(c)| >= 7 && Label(c)[..7] == "Honours" <==> Rank(c) >= 2
  {
    assert "Honours (Highest Distinction)"[..7] == "Honours";
    assert "Honours (Distinction)"[..7] == "Honours";
    assert "Honours (Merit)"[..7] == "Honours";
    assert "Below Graduation Threshold"[..7] != "Honours" by {
      assert "Below Graduation Threshold"[0] == 'B';
    }
  }

  /** The figures of the analysis table. */
  datatype Summary = Summary(
    finalGpa: real,                // 3 d.p., used for the classification
    classification: Classification,
    displayGpa: real,              // 4 d.p., rounded from the unrounded GPA
    cusForGpa: real,
    completedCus: real,
    attempted: nat,                // A + B + C + D
    counted: nat,                  // A
    satisfactoryUnsat: nat,        // B
    completedOrOverseas: nat,      // C
    unresolved: nat)               // D

  /**
   * The counted CUs add up to 0, in particular when no row is counted: the
   * GPA divides by 0 (the integer 0 of an empty sum, or the float 0.0) and
   * raises `ZeroDivisionError`.
   */
  datatype AnalysisError = ZeroCountedUnits

  datatype Analysis = Ok(summary: Summary) | Err(error: AnalysisError)

  /** The unrounded GPA: the weighted sum over the counted CUs. */
  function RawGpa(rows: seq<Row>, allAY: seq<string>): real
    requires Units(rows, Counted, allAY) != 0.0
  {
    WeightedPoints(rows, allAY) / Units(rows, Counted, allAY)
  }

  /** View Analysis on the tracker's rows, with allAY the year categories. */
  function Analyse(rows: seq<Row>, allAY: seq<string>): (r: Analysis)
    ensures r.Err? <==> Units(rows, Counted, allAY) == 0.0
    ensures r.Ok? ==>
      && r.summary.finalGpa == Round(RawGpa(rows, allAY), 3)
      && r.summary.displayGpa == Round(RawGpa(rows, allAY), 4)
      && r.summary.classification == Classify(r.summary.finalGpa)
  {
    var units := Units(rows, Counted, allAY);
    if units == 0.0 then Err(ZeroCountedUnits)
    else
      var gpa := WeightedPoints(rows, allAY) / units;
      var final := Round(gpa, 3);
      Ok(Summary(
        final,
        Classify(final),
        Round(gpa, 4),
        units,
        Units(rows, Any, allAY) - Units(rows, NotCompleted, allAY),
        |rows|,
        Count(rows, Counted, allAY),
        Count(rows, SatisfactoryUnsat, allAY),
        Count(rows, CompletedOrOverseas, allAY),
        Count(rows, Unresolved, allAY)))
  }

  /** Rows of no bucket b have no CUs in b. */
  lemma {:induction false} NoRowsNoUnits(rows: seq<Row>, b: Bucket, allAY: seq<string>)
    requires Count(rows, b, allAY) == 0
    ensures Units(rows, b, allAY) == 0.0
  {
    if rows != [] {
      NoRowsNoUnits(rows[1..], b, allAY);
    }
  }

  /** With positive CUs on every row of bucket b, some row in b gives positive CUs in b. */
  lemma {:induction false} SomeRowsPositiveUnits(rows: seq<Row>, b: Bucket, allAY: seq<string>)
    requires forall r :: r in rows && InBucket(r, b, allAY) ==> r.cus > 0.0
    ensures Count(rows, b, allAY) > 0 ==> Units(rows, b, allAY) > 0.0
    ensures Units(rows, b, allAY) >= 0.0
  {
    if rows != [] {
      assert forall r :: r in rows[1..] ==> r in rows;
      SomeRowsPositiveUnits(rows[1..], b, allAY);
    }
  }

  /** With no counted row, View Analysis fails. */
  lemma NoCountedRowFails(rows: seq<Row>, allAY: seq<string>)
    requires Count(rows, Counted, allAY) == 0
    ensures Analyse(rows, allAY) == Err(ZeroCountedUnits)
  {
    NoRowsNoUnits(rows, Counted, allAY);
  }

  /**
   * When every counted row has positive CUs, View Analysis succeeds exactly
   * when some row is counted.
   */
  lemma AnalysisOkIffCounted(rows: seq<Row>, allAY: seq<string>)
    requires forall r :: r in rows && InBucket(r, Counted, allAY) ==> r.cus > 0.0
    ensures Analyse(rows, allAY).Ok? <==> Count(rows, Counted, allAY) > 0
  {
    SomeRowsPositiveUnits(rows, Counted, allAY);
    if Count(rows, Counted, allAY) == 0 {
      NoRowsNoUnits(rows, Counted, allAY);
    }
  }

  /** A single counted course of 0 CUs (a 0-CU catalog course graded A) makes View Analysis fail. */
  lemma ZeroUnitCourseFails()
    ensures var r := Row("CS2101", "Effective Communication", 0.0, "A", Some(5.0), "2023/2024");
      Count([r], Counted, ["2023/2024"]) == 1 && Analyse([r], ["2023/2024"]).Err?
  {
    var r := Row("CS2101", "Effective Communication", 0.0, "A", Some(5.0), "2023/2024");
    assert ParseGrade("A") == Some(A);
    assert InBucket(r, Counted, ["2023/2024"]);
    assert [r][1..] == [];
  }

  // ---- sums over appended and removed rows ----

  lemma {:induction false} CountAppend(s: seq<Row>, r: Row, b: Bucket, allAY: seq<string>)
    ensures Count(s + [r], b, allAY) == Count(s, b, allAY) + (if InBucket(r, b, allAY) then 1 else 0)
  {
    if s != [] {
      assert (s + [r])[1..] == s[1..] + [r];
      CountAppend(s[1..], r, b, allAY);
    }
  }

  lemma {:induction false} UnitsAppend(s: seq<Row>, r: Row, b: Bucket, allAY: seq<string>)
    ensures Units(s + [r], b, allAY) == Units(s, b, allAY) + (if InBucket(r, b, allAY) then r.cus else 0.0)
  {
    if s != [] {
      assert (s + [r])[1..] == s[1..] + [r];
      UnitsAppend(s[1..], r, b, allAY);
    }
  }

  lemma {:induction false} WeightedPointsAppend(s: seq<Row>, r: Row, allAY: seq<string>)
    ensures WeightedPoints(s + [r], allAY) ==
      WeightedPoints(s, allAY) + Weight(r, allAY)
  {
    if s != [] {
      assert (s + [r])[1..] == s[1..] + [r];
      WeightedPointsAppend(s[1..], r, allAY);
    }
  }

  lemma {:induction false} CountRemove(s: seq<Row>, x: Row, b: Bucket, allAY: seq<string>)
    requires x in s
    ensures Count(s, b, allAY) == Count(RemoveFirst(s, x), b, allAY) + (if InBucket(x, b, allAY) then 1 else 0)
  {
    if s[0] != x {
      CountRemove(s[1..], x, b, allAY);
      RemoveFirstCons(s, x);
    }
  }

  lemma {:induction false} UnitsRemove(s: seq<Row>, x: Row, b: Bucket, allAY: seq<string>)
    requires x in s
    ensures Units(s, b, allAY) == Units(RemoveFirst(s, x), b, allAY) + (if InBucket(x, b, allAY) then x.cus else 0.0)
  {
    if s[0] != x {
      UnitsRemove(s[1..], x, b, allAY);
      RemoveFirstCons(s, x);
    }
  }

  lemma {:induction false} WeightedPointsRemove(s: seq<Row>, x: Row, allAY: seq<string>)
    requires x in s
    ensures WeightedPoints(s, allAY) ==
      WeightedPoints(RemoveFirst(s, x), allAY) + Weight(x, allAY)
  {
    if s[0] != x {
      WeightedPointsRemove(s[1..], x, allAY);
      RemoveFirstCons(s, x);
    }
  }

  // ---- properties of the analysis ----

  /**
   * Remove last row takes out the first row equal to the last one rather than
   * the last position, but every figure of the analysis is the same as after
   * dropping the last position.
   */
  lemma AnalysisAfterRemoveLast(s: seq<Row>, allAY: seq<string>)
    requires s != []
    ensures Analyse(RemoveFirst(s, Last(s)), allAY) == Analyse(DropLast(s), allAY)
  {
    var x, t, u := Last(s), RemoveFirst(s, Last(s)), DropLast(s);
    assert s == u + [x];
    RemoveLastByValue(s);
    forall b: Bucket
      ensures Count(t, b, allAY) == Count(u, b, allAY)
      ensures Units(t, b, allAY) == Units(u, b, allAY)
    {
      CountRemove(s, x, b, allAY);
      CountAppend(u, x, b, allAY);
      UnitsRemove(s, x, b, allAY);
      UnitsAppend(u, x, b, allAY);
    }
    WeightedPointsRemove(s, x, allAY);
    WeightedPointsAppend(u, x, allAY);
  }

  /** Counted rows with non-negative CUs and grade points on the scale. */
  ghost predicate OnScale(rows: seq<Row>, allAY: seq<string>)
  {
    forall r :: r in rows && InBucket(r, Counted, allAY) ==>
      r.cus >= 0.0 && 0.0 <= r.points.value <= 5.0
  }

  /** The weighted sum lies between 0 and 5 times the counted CUs. */
  lemma {:induction false} WeightedPointsBounds(rows: seq<Row>, allAY: seq<string>)
    requires OnScale(rows, allAY)
    ensures 0.0 <= WeightedPoints(rows, allAY) <= 5.0 * Units(rows, Counted, allAY)
    ensures Units(rows, Counted, allAY) >= 0.0
  {
    if rows != [] {
      var r := rows[0];
      WeightedPointsBounds(rows[1..], allAY);
      if InBucket(r, Counted, allAY) {
        var c, p := r.cus, r.points.value;
        assert c * (5.0 - p) >= 0.0;
        assert 0.0 <= c * p <= 5.0 * c;
        assert WeightedPoints(rows, allAY) == c * p + WeightedPoints(rows[1..], allAY);
        assert Units(rows, Counted, allAY) == c + Units(rows[1..], Counted, allAY);
      }
    }
  }

  /** A sum of at most 5 per unit, divided by the positive number of units, is between 0 and 5. */
  lemma QuotientOnScale(n: real, d: real)
    requires d > 0.0 && 0.0 <= n <= 5.0 * d
    ensures 0.0 <= n / d <= 5.0
  {
    DivMonotone(0.0, n, d);
    DivMonotone(n, 5.0 * d, d);
    assert 5.0 * d / d == 5.0;
  }

  /** The GPA is a value between 0 and 5 when the counted CUs are positive. */
  lemma GpaInRange(rows: seq<Row>, allAY: seq<string>)
    requires OnScale(rows, allAY)
    requires Units(rows, Counted, allAY) > 0.0
    ensures 0.0 <= RawGpa(rows, allAY) <= 5.0
    ensures Analyse(rows, allAY).Ok?
    ensures 0.0 <= Analyse(rows, allAY).summary.finalGpa <= 5.0
    ensures 0.0 <= Analyse(rows, allAY).summary.displayGpa <= 5.0
  {
    var n, d := WeightedPoints(rows, allAY), Units(rows, Counted, allAY);
    WeightedPointsBounds(rows, allAY);
    QuotientOnScale(n, d);
    RoundInGradeRange(n / d, 3);
    RoundInGradeRange(n / d, 4);
  }

  /**
   * Appending a row that is not counted (a non-counting grade, an unknown
   * grade label or a year outside the categories) leaves the GPA, its
   * roundings, the classification and the CUs used for the GPA unchanged;
   * one more course is attempted, and its CUs are completed unless its grade
   * is one that does not complete.
   */
  lemma AppendUncountedRow(rows: seq<Row>, r: Row, allAY: seq<string>)
    requires !InBucket(r, Counted, allAY)
    ensures Analyse(rows + [r], allAY).Ok? == Analyse(rows, allAY).Ok?
    ensures Analyse(rows, allAY).Ok? ==>
      var before, after := Analyse(rows, allAY).summary, Analyse(rows + [r], allAY).summary;
      && after.finalGpa == before.finalGpa
      && after.displayGpa == before.displayGpa
      && after.classification == before.classification
      && after.cusForGpa == before.cusForGpa
      && after.counted == before.counted
      && after.attempted == before.attempted + 1
      && after.completedCus == before.completedCus + (if InBucket(r, NotCompleted, allAY) then 0.0 else r.cus)
  {
    CountAppend(rows, r, Counted, allAY);
    UnitsAppend(rows, r, Counted, allAY);
    UnitsAppend(rows, r, Any, allAY);
    UnitsAppend(rows, r, NotCompleted, allAY);
    WeightedPointsAppend(rows, r, allAY);
  }

  /** Adding a course with a non-counting grade is such a row. */
  lemma AddNonCountingCourse(rows: seq<Row>, catalog: Catalog, code: string, g: Grade, ay: string, allAY: seq<string>)
    requires code in catalog && GradePoint(g).None?
    ensures Analyse(rows + [CourseRow(catalog, code, g, ay)], allAY).Ok? == Analyse(rows, allAY).Ok?
    ensures Analyse(rows, allAY).Ok? ==>
      && Analyse(rows + [CourseRow(catalog, code, g, ay)], allAY).summary.finalGpa == Analyse(rows, allAY).summary.finalGpa
      && Analyse(rows + [CourseRow(catalog, code, g, ay)], allAY).summary.cusForGpa == Analyse(rows, allAY).summary.cusForGpa
  {
    AppendUncountedRow(rows, CourseRow(catalog, code, g, ay), allAY);
  }

  /** The completed CUs, computed as all CUs minus the not-completed ones, are the CUs of the completed rows. */
  lemma {:induction false} CompletedUnits(rows: seq<Row>, allAY: seq<string>)
    ensures Units(rows, Any, allAY) - Units(rows, NotCompleted, allAY) == Units(rows, Completed, allAY)
  {
    if rows != [] {
      CompletedUnits(rows[1..], allAY);
    }
  }

  /** With non-negative CUs, the CUs of any bucket are between 0 and the total. */
  lemma {:induction false} UnitsWithinTotal(rows: seq<Row>, b: Bucket, allAY: seq<string>)
    requires forall r :: r in rows ==> r.cus >= 0.0
    ensures 0.0 <= Units(rows, b, allAY) <= Units(rows, Any, allAY)
  {
    if rows != [] {
      UnitsWithinTotal(rows[1..], b, allAY);
    }
  }

  /** With non-negative CUs, the completed CUs are between 0 and the total CUs. */
  lemma CompletedWithinTotal(rows: seq<Row>, allAY: seq<string>)
    requires forall r :: r in rows ==> r.cus >= 0.0
    requires Analyse(rows, allAY).Ok?
    ensures 0.0 <= Analyse(rows, allAY).summary.completedCus <= Units(rows, Any, allAY)
  {
    CompletedUnits(rows, allAY);
    UnitsWithinTotal(rows, Completed, allAY);
    UnitsWithinTotal(rows, NotCompleted, allAY);
  }

  /** No row is in two of the reporting buckets. */
  lemma BucketsDisjoint(r: Row, allAY: seq<string>)
    ensures !(InBucket(r, SatisfactoryUnsat, allAY) && InBucket(r, CompletedOrOverseas, allAY))
    ensures !(InBucket(r, SatisfactoryUnsat, allAY) && InBucket(r, Unresolved, allAY))
    ensures !(InBucket(r, CompletedOrOverseas, allAY) && InBucket(r, Unresolved, allAY))
  {
  }

  /**
   * On well-formed rows, the counted rows and the three reporting buckets
   * partition the rows: A + B + C + D is the number of courses attempted.
   */
  lemma {:induction false} CategoriesPartition(rows: seq<Row>, allAY: seq<string>)
    requires AllWellFormed(rows, allAY)
    ensures |rows| == Count(rows, Counted, allAY) + Count(rows, SatisfactoryUnsat, allAY)
                    + Count(rows, CompletedOrOverseas, allAY) + Count(rows, Unresolved, allAY)
  {
    if rows != [] {
      assert WellFormed(rows[0], allAY);
      GradeClasses(ParseGrade(rows[0].grade).value);
      CategoriesPartition(rows[1..], allAY);
    }
  }

  /**
   * Without well-formed rows the partition fails: an uploaded row with a
   * counting grade but a year outside the categories is in no bucket.
   */
  lemma PartitionNeedsKnownYear()
    ensures exists rows: seq<Row>, allAY: seq<string> ::
      |rows| != Count(rows, Counted, allAY) + Count(rows, SatisfactoryUnsat, allAY)
              + Count(rows, CompletedOrOverseas, allAY) + Count(rows, Unresolved, allAY)
  {
    var r := Row("CS1010", "Programming Methodology", 4.0, "A", Some(5.0), "2010/2011");
    var allAY := ["2023/2024"];
    assert !InBucket(r, Counted, allAY);
    assert Count([r], Counted, allAY) == 0;
  }

  /** The boundaries are closed below: 3.500 is Merit and 3.499 is plain Honours. */
  lemma ClosedLowerBoundary()
    ensures Classify(3.500) == Merit && Classify(3.499) == Honours
    ensures Classify(4.500) == HighestDistinction && Classify(1.999) == BelowGraduationThreshold
  {
  }

  /**
   * The display value is rounded from the unrounded GPA, not from the 3-d.p.
   * value: a GPA of 3.49966 is classified on 3.500 (Merit) but displayed as
   * 3.4997.
   */
  lemma RoundingIndependence()
    ensures Round(3.49966, 3) == 3.5 && Classify(Round(3.49966, 3)) == Merit
    ensures Round(3.49966, 4) == 3.4997
    ensures Round(Round(3.49966, 3), 4) != Round(3.49966, 4)
  {
    assert Pow10(3) == 1000 && Pow10(4) == 10000;
    assert Shifted(3.49966, 3) == 3500.16;
    assert Shifted(3.49966, 4) == 34997.1;
    assert Shifted(3.5, 4) == 35000.5;
  }
}
