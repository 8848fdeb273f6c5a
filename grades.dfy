/**
 * The fixed NUS grade table: 22 letter grades, eleven of which carry a grade
 * point between 0.0 and 5.0 and eleven of which do not count towards the GPA,
 * together with the reverse table from the ten distinct grade points to their
 * letters that the forecast uses.
 */
module Grades {
  import opened Wrappers

  /** The keys of the grade table, in the order the grade selector lists them. */
  datatype Grade =
    | APlus | A | AMinus | BPlus | B | BMinus | CPlus | C | DPlus | D | F
    | S | U | CS | CU | OVS | OVU | OVI | EXE | IC | IP | W

  /** The label under which a grade is shown and stored in a course row. */
  function Letter(g: Grade): string
  {
    match g
    case APlus => "A+"
    case A => "A"
    case AMinus => "A-"
    case BPlus => "B+"
    case B => "B"
    case BMinus => "B-"
    case CPlus => "C+"
    case C => "C"
    case DPlus => "D+"
    case D => "D"
    case F => "F"
    case S => "S"
    case U => "U"
    case CS => "CS"
    case CU => "CU"
    case OVS => "OVS"
    case OVU => "OVU"
    case OVI => "OVI"
    case EXE => "EXE"
    case IC => "IC"
    case IP => "IP"
    case W => "W"
  }

  /**
   * The category a stored grade label falls into when the grade column is made
   * categorical over the table's keys: a label that is not a key becomes a
   * missing value.
   */
  function ParseGrade(s: string): (r: Option<Grade>)
    ensures r.Some? ==> Letter(r.value) == s
  {
    if s == "A+" then Some(APlus)
    else if s == "A" then Some(A)
    else if s == "A-" then Some(AMinus)
    else if s == "B+" then Some(BPlus)
    else if s == "B" then Some(B)
    else if s == "B-" then Some(BMinus)
    else if s == "C+" then Some(CPlus)
    else if s == "C" then Some(C)
    else if s == "D+" then Some(DPlus)
    else if s == "D" then Some(D)
    else if s == "F" then Some(F)
    else if s == "S" then Some(S)
    else if s == "U" then Some(U)
    else if s == "CS" then Some(CS)
    else if s == "CU" then Some(CU)
    else if s == "OVS" then Some(OVS)
    else if s == "OVU" then Some(OVU)
    else if s == "OVI" then Some(OVI)
    else if s == "EXE" then Some(EXE)
    else if s == "IC" then Some(IC)
    else if s == "IP" then Some(IP)
    else if s == "W" then Some(W)
    else None
  }

  /** Every grade's label is recognised as that grade: the 22 labels are distinct keys. */
  lemma ParseLetter(g: Grade)
    ensures ParseGrade(Letter(g)) == Some(g)
  {
  }

  /** The grade table: a grade point for the counting grades, `None` for the others. */
  function GradePoint(g: Grade): Option<real>
  {
    match g
    case APlus => Some(5.0)
    case A => Some(5.0)
    case AMinus => Some(4.5)
    case BPlus => Some(4.0)
    case B => Some(3.5)
    case BMinus => Some(3.0)
    case CPlus => Some(2.5)
    case C => Some(2.0)
    case DPlus => Some(1.5)
    case D => Some(1.0)
    case F => Some(0.0)
    case _ => None
  }

  /** Grades counted as "S/Ued" in the course totals. */
  predicate IsSatisfactoryUnsat(g: Grade)
  {
    g == S || g == U
  }

  /** Grades counted among the "CS/CU/OVS/OVU" courses. */
  predicate IsCompletedOrOverseas(g: Grade)
  {
    g == CU || g == CS || g == OVU || g == OVS
  }

  /** Grades counted among the "EXE, IC, OVI, IP or W" courses. */
  predicate IsUnresolved(g: Grade)
  {
    g == EXE || g == IC || g == OVI || g == IP || g == W
  }

  /** Grades whose course units do not count as completed successfully. */
  predicate IsNotCompleted(g: Grade)
  {
    g == U || g == CU || g == OVU || g == OVI || g == IC || g == IP || g == W
  }

  /**
   * Each grade is in exactly one of four classes: it has a grade point, or it is
   * in exactly one of the three reporting buckets.
   */
  lemma GradeClasses(g: Grade)
    ensures (if GradePoint(g).Some? then 1 else 0)
          + (if IsSatisfactoryUnsat(g) then 1 else 0)
          + (if IsCompletedOrOverseas(g) then 1 else 0)
          + (if IsUnresolved(g) then 1 else 0) == 1
    ensures IsNotCompleted(g) ==> GradePoint(g).None?
  {
  }

  /** The grade points of the reverse table, in descending order. */
  const SortedPoints: seq<real> := [5.0, 4.5, 4.0, 3.5, 3.0, 2.5, 2.0, 1.5, 1.0, 0.0]

  /** The reverse table, from grade point to the letter (or letters) that earn it. */
  const PointLetters: map<real, string> :=
    map[5.0 := "A+/A", 4.5 := "A-", 4.0 := "B+", 3.5 := "B", 3.0 := "B-",
        2.5 := "C+", 2.0 := "C", 1.5 := "D+", 1.0 := "D", 0.0 := "F"]

  /**
   * The descending list holds exactly the keys of the reverse table, without
   * repetition, strictly decreasing from 5.0 to 0.0.
   */
  lemma SortedPointsAreSortedKeys()
    ensures |SortedPoints| == 10
    ensures forall p :: p in PointLetters <==> p in SortedPoints
    ensures forall i, j :: 0 <= i < j < |SortedPoints| ==> SortedPoints[i] > SortedPoints[j]
    ensures SortedPoints[0] == 5.0 && SortedPoints[9] == 0.0
  {
  }

  /**
   * The reverse table agrees with the grade table: every grade point a grade
   * earns is a key of the reverse table, and every key is earned by some grade.
   */
  lemma ReverseTableAgrees()
    ensures forall g :: GradePoint(g).Some? ==> GradePoint(g).value in PointLetters
    ensures forall p :: p in PointLetters ==> exists g :: GradePoint(g) == Some(p)
  {
    forall p | p in PointLetters
      ensures exists g :: GradePoint(g) == Some(p)
    {
      if p == 5.0 { assert GradePoint(A) == Some(p); }
      else if p == 4.5 { assert GradePoint(AMinus) == Some(p); }
      else if p == 4.0 { assert GradePoint(BPlus) == Some(p); }
      else if p == 3.5 { assert GradePoint(B) == Some(p); }
      else if p == 3.0 { assert GradePoint(BMinus) == Some(p); }
      else if p == 2.5 { assert GradePoint(CPlus) == Some(p); }
      else if p == 2.0 { assert GradePoint(C) == Some(p); }
      else if p == 1.5 { assert GradePoint(DPlus) == Some(p); }
      else if p == 1.0 { assert GradePoint(D) == Some(p); }
      else { assert GradePoint(F) == Some(p); }
    }
  }

  /** Every grade point lies on the 0.0 to 5.0 scale. */
  lemma GradePointRange(g: Grade)
    ensures GradePoint(g).Some? ==> 0.0 <= GradePoint(g).value <= 5.0
  {
  }
}
