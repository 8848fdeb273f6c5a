/**
 * Course rows and the course tracker: the session list of rows
 * [code, title, CUs, grade, grade points, AY] that Add Course, Remove last
 * row, Clear All and a spreadsheet upload change in place.
 */
module Courses {
  import opened Wrappers
  import opened Grades

  /** What the catalog records of a course: its title and its number of course units (CUs). */
  datatype CourseInfo = CourseInfo(title: string, cus: real)

  /** The course catalog of one academic year, keyed by course code. */
  type Catalog = map<string, CourseInfo>

  /**
   * One row of the tracker. The grade is the stored label and the grade points
   * the stored value; a row from an uploaded sheet may carry any label, points
   * or year.
   */
  datatype Row = Row(code: string, title: string, cus: real, grade: string, points: Option<real>, ay: string)

  /** The row Add Course appends for a course, a grade and the stored year label. */
  function CourseRow(catalog: Catalog, code: string, g: Grade, ay: string): (r: Row)
    requires code in catalog
    ensures r.code == code && r.ay == ay
    ensures r.title == catalog[code].title && r.cus == catalog[code].cus
    ensures ParseGrade(r.grade) == Some(g) && r.points == GradePoint(g)
  {
    ParseLetter(g);
    Row(code, catalog[code].title, catalog[code].cus, Letter(g), GradePoint(g), ay)
  }

  /**
   * A row as Add Course makes them: a known grade carrying its own grade
   * points, a year among the year categories, and non-negative CUs.
   */
  ghost predicate WellFormed(r: Row, allAY: seq<string>)
  {
    && ParseGrade(r.grade).Some?
    && r.points == GradePoint(ParseGrade(r.grade).value)
    && r.ay in allAY
    && r.cus >= 0.0
  }

  ghost predicate AllWellFormed(rows: seq<Row>, allAY: seq<string>)
  {
    forall r :: r in rows ==> WellFormed(r, allAY)
  }

  /** A row built for a catalog course with non-negative CUs and a year among the categories is well formed. */
  lemma CourseRowWellFormed(catalog: Catalog, code: string, g: Grade, ay: string, allAY: seq<string>)
    requires code in catalog && catalog[code].cus >= 0.0 && ay in allAY
    ensures WellFormed(CourseRow(catalog, code, g, ay), allAY)
  {
  }

  function Last<T>(s: seq<T>): T
    requires s != []
  {
    s[|s| - 1]
  }

  function DropLast<T>(s: seq<T>): seq<T>
    requires s != []
  {
    s[..|s| - 1]
  }

  /** Python's `list.remove(x)`: the first element equal to x is taken out. */
  function RemoveFirst<T(==)>(s: seq<T>, x: T): seq<T>
    requires x in s
  {
    if s[0] == x then s[1..] else [s[0]] + RemoveFirst(s[1..], x)
  }

  /** The first position holding x. */
  function FirstIndex<T(==)>(s: seq<T>, x: T): (k: nat)
    requires x in s
    ensures k < |s| && s[k] == x
    ensures forall j :: 0 <= j < k ==> s[j] != x
  {
    if s[0] == x then 0
    else
      assert x in s[1..];
      FirstIndex(s[1..], x) + 1
  }

  /**
   * `list.remove` deletes the element at the first position holding x, and
   * only that element.
   */
  lemma {:induction false} RemoveFirstAt<T>(s: seq<T>, x: T)
    requires x in s
    ensures RemoveFirst(s, x) == s[..FirstIndex(s, x)] + s[FirstIndex(s, x) + 1..]
  {
    if s[0] != x {
      var t := s[1..];
      assert x in t;
      var k := FirstIndex(t, x);
      assert FirstIndex(s, x) == k + 1;
      assert RemoveFirst(s, x) == [s[0]] + RemoveFirst(t, x);
      RemoveFirstAt(t, x);
      SpliceTail(s, k);
    }
  }

  /** Splicing out position k + 1 of s is splicing out position k of its tail. */
  lemma SpliceTail<T>(s: seq<T>, k: nat)
    requires k + 1 < |s|
    ensures s[..k + 1] + s[k + 2..] == [s[0]] + (s[1..][..k] + s[1..][k + 1..])
  {
    assert s[..k + 1] == [s[0]] + s[1..][..k];
    assert s[k + 2..] == s[1..][k + 1..];
  }

  /** When the head is not x, `list.remove` keeps the head and removes x from the tail. */
  lemma RemoveFirstCons<T>(s: seq<T>, x: T)
    requires x in s && s[0] != x
    ensures x in s[1..]
    ensures RemoveFirst(s, x) != [] && RemoveFirst(s, x)[0] == s[0]
    ensures RemoveFirst(s, x)[1..] == RemoveFirst(s[1..], x)
  {
    assert s == [s[0]] + s[1..];
    assert RemoveFirst(s, x) == [s[0]] + RemoveFirst(s[1..], x);
  }

  /** `list.remove` takes out exactly one occurrence of x. */
  lemma {:induction false} RemoveFirstMultiset<T>(s: seq<T>, x: T)
    requires x in s
    ensures |RemoveFirst(s, x)| == |s| - 1
    ensures multiset(RemoveFirst(s, x)) + multiset{x} == multiset(s)
  {
    assert s == [s[0]] + s[1..];
    if s[0] != x {
      RemoveFirstMultiset(s[1..], x);
    }
  }

  lemma MultisetCancel<T>(a: multiset<T>, b: multiset<T>, c: multiset<T>)
    requires a + c == b + c
    ensures a == b
  {
    assert a == a + c - c;
    assert b == b + c - c;
  }

  /**
   * Removing the last row by value takes exactly one row equal to the last one
   * out: the length drops by one and the same multiset of rows remains as
   * when dropping the last position.
   */
  lemma RemoveLastByValue<T>(s: seq<T>)
    requires s != []
    ensures |RemoveFirst(s, Last(s))| == |s| - 1
    ensures multiset(RemoveFirst(s, Last(s))) + multiset{Last(s)} == multiset(s)
    ensures multiset(RemoveFirst(s, Last(s))) == multiset(DropLast(s))
  {
    var x := Last(s);
    var t, u := RemoveFirst(s, x), DropLast(s);
    RemoveFirstMultiset(s, x);
    assert s == u + [x];
    assert multiset(s) == multiset(u) + multiset{x};
    MultisetCancel(multiset(t), multiset(u), multiset{x});
  }

  /**
   * The removed row need not be the last position: with a duplicate of the
   * last row earlier in the list, the remaining rows come out reordered.
   */
  lemma RemoveLastMayReorder()
    ensures exists s: seq<Row> :: s != [] && RemoveFirst(s, Last(s)) != DropLast(s)
  {
    var r1 := Row("CS1010", "Programming Methodology", 4.0, "A", Some(5.0), "2023/2024");
    var r2 := Row("MA1521", "Calculus for Computing", 4.0, "B", Some(3.5), "2023/2024");
    var s := [r1, r2, r1];
    assert RemoveFirst(s, Last(s)) == [r2, r1];
    assert DropLast(s)[0] == r1;
  }

  /** Every row left after removing one is a row of the original list. */
  lemma {:induction false} RemoveFirstSubset<T>(s: seq<T>, x: T)
    requires x in s
    ensures forall y :: y in RemoveFirst(s, x) ==> y in s
  {
    if s[0] != x {
      RemoveFirstSubset(s[1..], x);
    }
  }

  /** The column headers an uploaded sheet must have, in this order. */
  const ExpectedHeaders: seq<string> :=
    ["Course Code", "Course Title", "No. of CUs", "Grade", "Grade Points", "AY Taken"]

  /** An uploaded spreadsheet: its column headers and its rows. */
  datatype Sheet = Sheet(headers: seq<string>, body: seq<Row>)

  /** What happened to an upload on one run of the page. */
  datatype UploadOutcome = NoFile | AlreadyUploaded | BadHeaders | Appended(count: nat)

  /** The session's course list and whether the current upload has been taken in. */
  class CourseTracker {
    var rows: seq<Row>
    var uploadDone: bool

    /** A new session starts with no rows and no upload. */
    constructor ()
      ensures rows == [] && !uploadDone
    {
      rows := [];
      uploadDone := false;
    }

    /** Add Course: append the row for the selected course, grade and year label. */
    method AddCourse(catalog: Catalog, code: string, g: Grade, ay: string)
      requires code in catalog
      modifies this
      ensures rows == old(rows) + [CourseRow(catalog, code, g, ay)]
      ensures uploadDone == old(uploadDone)
    {
      rows := rows + [CourseRow(catalog, code, g, ay)];
    }

    /** Remove last row: nothing on an empty list, else remove the first row equal to the last one. */
    method RemoveLast()
      modifies this
      ensures old(rows) == [] ==> rows == []
      ensures old(rows) != [] ==> rows == RemoveFirst(old(rows), Last(old(rows)))
      ensures uploadDone == old(uploadDone)
    {
      if rows != [] {
        rows := RemoveFirst(rows, rows[|rows| - 1]);
      }
    }

    /** Clear All: the list becomes empty. */
    method ClearAll()
      modifies this
      ensures rows == []
      ensures uploadDone == old(uploadDone)
    {
      rows := [];
    }

    /**
     * One run of the upload widget. A sheet not yet taken in is appended row by
     * row when its headers are the expected ones, and then marked as taken in;
     * removing the file clears the mark.
     */
    method SyncUpload(file: Option<Sheet>) returns (outcome: UploadOutcome)
      modifies this
      ensures file.None? ==> outcome == NoFile && rows == old(rows) && !uploadDone
      ensures file.Some? && old(uploadDone) ==>
        outcome == AlreadyUploaded && rows == old(rows) && uploadDone
      ensures file.Some? && !old(uploadDone) && file.value.headers != ExpectedHeaders ==>
        outcome == BadHeaders && rows == old(rows) && !uploadDone
      ensures file.Some? && !old(uploadDone) && file.value.headers == ExpectedHeaders ==>
        outcome == Appended(|file.value.body|) && rows == old(rows) + file.value.body && uploadDone
    {
      if file.None? {
        uploadDone := false;
        return NoFile;
      }
      if uploadDone {
        return AlreadyUploaded;
      }
      var sheet := file.value;
      if sheet.headers != ExpectedHeaders {
        return BadHeaders;
      }
      var i := 0;
      while i < |sheet.body|
        invariant 0 <= i <= |sheet.body|
        invariant rows == old(rows) + sheet.body[..i]
      {
        rows := rows + [sheet.body[i]];
        i := i + 1;
      }
      uploadDone := true;
      return Appended(|sheet.body|);
    }
  }

  /** Add Course keeps every row well formed when the new row is. */
  lemma AddKeepsWellFormed(rows: seq<Row>, r: Row, allAY: seq<string>)
    requires AllWellFormed(rows, allAY) && WellFormed(r, allAY)
    ensures AllWellFormed(rows + [r], allAY)
  {
  }

  /** Remove last row keeps every row well formed. */
  lemma RemoveKeepsWellFormed(rows: seq<Row>, allAY: seq<string>)
    requires rows != [] && AllWellFormed(rows, allAY)
    ensures AllWellFormed(RemoveFirst(rows, Last(rows)), allAY)
  {
    RemoveFirstSubset(rows, Last(rows));
  }
}
