# NUS GPA engine — a Dafny model

This project models the computing core of the NUS GPA calculator's two computing pages in `main.py`: `calc`, the course tracker with its GPA analysis, and `forecast`, the GPA forecast.
The model covers:

- **Grade table.** There are 22 letter grades. Eleven carry a grade point from 0.0 to 5.0; the others do not count towards the GPA. A reverse table goes from the ten distinct grade points back to letters.
- **Academic-year labels.** The selector lists the options "AY yyyy/yyyy". A new academic year is offered from 6 August. The chosen option is cut into the catalog key "yyyy-yyyy". That key is cut again into the label "yyyy/yyyy" stored with each row. "AY Taken" is a category column whose allowed values are the options without their "AY " prefix.
- **The course tracker.** The session's list of rows `[code, title, CUs, grade, grade points, AY]`. Add Course, Remove last row, Clear All and a spreadsheet upload change it in place. It is modelled as a class with a `seq` field.
- **View Analysis.** This computes:
  - the CU-weighted GPA over the rows that survive `dropna`;
  - that GPA rounded to 3 and to 4 decimal places;
  - the degree classification, which comes from the 3-d.p. value;
  - the CUs used for the GPA and the CUs completed successfully;
  - four course counts: A (counted), B (S/U), C (CS/CU/OVS/OVU) and D (EXE/IC/OVI/IP/W).
- **GPA Forecast.** This computes:
  - the best-case and worst-case GPA if every new course earns the same grade;
  - for each honours tier, the unit-weighted average grade point the new courses need;
  - that average described in letter grades.

The modules follow this structure:

- `Wrappers` holds `Option`.
- `Grades`.
- `Rounding` holds rounding to d decimal places.
- `AcademicYear` holds the definitions and `AcademicYearProperties` their lemmas.
- `Courses` holds rows, the catalog and the `CourseTracker` class.
- `Aggregate` holds the analysis.
- `Forecast`.

Some inputs become parameters:

- The current year and the "mm-dd" date.
- The catalog fetched for an academic year is a `map` from course code to title and CUs.
- An uploaded sheet is its header list and its rows.
- The year categories are `allAY`.

Pandas behaviour is stated in the model's own terms:

- `pd.Categorical` turns an unknown grade label or AY label into a missing value.
- `dropna` then keeps exactly the *counted* rows. A counted row has a known grade label, grade points present and a year among the categories (`Aggregate.InBucket`, bucket `Counted`).

Three behaviours of the code are easy to miss. The model keeps them as written, and their consequences are proved in `Aggregate.NoCountedRowFails`, `Aggregate.ZeroUnitCourseFails`, `Aggregate.AnalysisAfterRemoveLast`, `Courses.RemoveLastMayReorder` and `Forecast.SecuredTierReportedImpossible`:

- **Zero counted CUs.** The GPA divides two built-in `sum`s over the counted rows. With no counted row the divisor is the integer 0; with counted rows whose CUs add up to 0 (a 0-CU course, say) it is the float 0.0. Either way the division raises `ZeroDivisionError`, and the page shows no analysis. The model returns `Err(ZeroCountedUnits)` exactly when the counted CUs add up to 0.
- **Remove last row.** It calls `list.remove(last)`, which removes the *first* row equal to the last one, not the last position. The model does the same, comparing rows by value (for the one place where Python's comparison differs, see "## Left out"). It proves that all the figures of the analysis are unchanged by this. It also shows that the order of the rows can differ.
- **"Impossible".** The forecast reports "Impossible" whenever the required average falls outside [0, 5]. That covers 0 new CUs, and also a tier that is already secured whatever the new grades.

## Model

| member | source | states |
|---|---|---|
| Grades.ParseGrade | main.py:188-189 | a label is recognised as a grade only if it is that grade's own label |
| Grades.Letter | main.py:110-131 | the label of each grade, the table's keys; `Grades.ParseLetter` shows the 22 labels are distinct and read back as their grades |
| Grades.GradePoint | main.py:110-131 | the grade table; its values are bounded in `Grades.GradePointRange`, its keys matched against the reverse table in `Grades.ReverseTableAgrees`, and its `None` grades classified in `Grades.GradeClasses` |
| Grades.ParseLetter | main.py:110-131 | every one of the 22 grade labels is recognised as its own grade, so the labels are distinct keys |
| Grades.GradeClasses | main.py:319-328 | each grade is exactly one of: counting (has a grade point), S/U, CS/CU/OVS/OVU, or EXE/IC/OVI/IP/W; a grade whose CUs are not completed never has a grade point |
| Grades.GradePointRange | main.py:110-120 | every grade point lies between 0.0 and 5.0 |
| Grades.SortedPointsAreSortedKeys | main.py:470-474 | the descending point list holds exactly the ten keys of the reverse table, strictly decreasing from 5.0 to 0.0 |
| Grades.ReverseTableAgrees | main.py:470 | every grade point of the grade table is a key of the reverse table, and every key is the point of some grade |
| Rounding.RoundMonotone | main.py:302-303 | rounding to d places never reverses the order of two values |
| Rounding.RoundFixed | main.py:302 | a value that already has d decimal places is unchanged by rounding to d places |
| Rounding.RoundClose | main.py:302-303 | the rounded value is within half a unit of the d-th place of the value |
| Rounding.Round | main.py:302-303 | half-up rounding to d places; `Rounding.RoundOnGrid` shows the result has d decimal places, and `Rounding.RoundMonotone`, `Rounding.RoundFixed`, `Rounding.RoundClose`, `Rounding.RoundIdempotent` and `Rounding.RoundInGradeRange` state its other properties |
| Rounding.RoundInGradeRange | main.py:302-303 | rounding keeps a value between 0 and 5 between 0 and 5 |
| Rounding.RoundOnGrid | main.py:302-303 | the rounded value has d decimal places: 10^d times it is a whole number |
| Rounding.RoundIdempotent | main.py:302-303 | rounding an already rounded value to the same places changes nothing |
| AcademicYearProperties.OptionCount | main.py:91-95 | there is one option per academic year since 2018/2019: year − 2018 before 6 August, year − 2017 from then on |
| AcademicYear.BeforeCutoff | main.py:91-94 | the string test `current_mth_day < "08-06"`, also at main.py:403-405; `AcademicYearProperties.CutoffIsDateOrder` shows it is the calendar test "before 6 August" on `strftime("%m-%d")` dates |
| AcademicYearProperties.CutoffIsDateOrder | main.py:73-94 | on a zero-padded "mm-dd" date, the string comparison with "08-06" holds exactly when the date is before 6 August |
| AcademicYear.OptionLabel | main.py:92-95 | the f-string of an option; `AcademicYearProperties.OptionAt` shows the options are these labels for 2018 onwards, and `AcademicYearProperties.OptionLabelCuts` gives its key and stored label |
| AcademicYear.DefaultOption | main.py:103 | the selector's starting option, `index = len(options)-1`; `AcademicYearProperties.LatestKeyIsDefaultKey` ties it to the forecast's key |
| AcademicYearProperties.OptionAtBefore | main.py:91-92 | before the cutoff, the k-th option is "AY y/(y+1)" with y = 2018 + k |
| AcademicYearProperties.OptionAtAfter | main.py:94-95 | from the cutoff on, the k-th option is "AY y/(y+1)" with y = 2018 + k |
| AcademicYearProperties.OptionAt | main.py:91-95 | on both sides of the cutoff: the number of options, and the k-th option is the label of academic year 2018 + k |
| AcademicYearProperties.LabelCuts | main.py:105-106 | cutting "AY " + y1 + "/" + y2 at [3:7] and [8:] gives y1 + "-" + y2; cutting that key at [:4] and [5:] and joining with "/" gives the option without "AY " |
| AcademicYearProperties.OptionLabelCuts | main.py:105-141 | for a four-digit year y, the key of the option for y is "y-(y+1)", and the stored label rebuilt from it is the option without "AY " |
| AcademicYearProperties.AyRoundTrip | main.py:103-194 | for every option: its key is "y-(y+1)"; the stored label rebuilt from the key equals the option without "AY "; that label is one of the "AY Taken" categories, so an added row is never dropped for its year |
| AcademicYearProperties.LatestKeyBefore | main.py:403-404 | before the cutoff, the forecast's latest key is the key of the last option |
| AcademicYearProperties.LatestKeyAfter | main.py:405-406 | from the cutoff on, the forecast's latest key is the key of the last option |
| AcademicYear.Options | main.py:91-95 | the selector options on each side of the cutoff; counted and indexed in `AcademicYearProperties.OptionCount` and `AcademicYearProperties.OptionAt` |
| AcademicYear.ApiKey | main.py:105-106 | the catalog key cut from an option; `AcademicYearProperties.AyRoundTrip` shows it is "y-(y+1)" for every option |
| AcademicYear.StoredLabel | main.py:141 | the year label stored in a row; `AcademicYearProperties.AyRoundTrip` shows it is the option without "AY " |
| AcademicYear.AllAY | main.py:191 | the "AY Taken" categories; `AcademicYearProperties.AyRoundTrip` shows every stored label is among them |
| AcademicYear.LatestKey | main.py:403-406 | the forecast's catalog key; `AcademicYearProperties.LatestKeyIsDefaultKey` shows it is the key of the default option |
| AcademicYearProperties.LatestKeyIsDefaultKey | main.py:403-406 | the options are never empty, and the forecast's latest catalog key is the key of the selector's default (last) option |
| Courses.CourseRow | main.py:143-155 | the appended row carries the code, the catalog's title and CUs, the grade's own label (recognised as that grade), its grade point and the year label |
| Courses.CourseRowWellFormed | main.py:143-155 | a row built for a catalog course with non-negative CUs and a year among the categories is well formed |
| Courses.RemoveFirst | main.py:160 | `list.remove(x)`; `Courses.RemoveFirstAt`, `Courses.RemoveFirstMultiset` and `Courses.RemoveFirstSubset` state what it removes |
| Courses.FirstIndex | main.py:160 | the position found holds x, and no earlier position does |
| Courses.RemoveFirstAt | main.py:160 | `list.remove(x)` splices out exactly the first position holding x |
| Courses.RemoveFirstMultiset | main.py:160 | `list.remove(x)` shortens the list by one and takes out exactly one occurrence of x (multiset) |
| Courses.RemoveLastByValue | main.py:158-160 | removing the last row by value leaves the same multiset of rows as dropping the last position |
| Courses.RemoveLastMayReorder | main.py:158-160 | there is a list (a duplicate of the last row earlier on) where removing by value differs from dropping the last position |
| Courses.RemoveFirstSubset | main.py:160 | every row left after a removal was a row of the original list |
| Courses.CourseTracker.constructor | main.py:97-101 | a new session has no rows and no upload taken in |
| Courses.CourseTracker.AddCourse | main.py:152-155 | the rows become the old rows followed by the row for the selected course, grade and year; the upload mark is unchanged |
| Courses.CourseTracker.RemoveLast | main.py:157-160 | an empty list stays empty; otherwise the rows become the old rows with the first row equal to the last one removed |
| Courses.CourseTracker.ClearAll | main.py:162-165 | the rows become empty; the upload mark is unchanged |
| Courses.CourseTracker.SyncUpload | main.py:168-182 | no file: nothing appended and the mark cleared; file already taken in: nothing changes; wrong headers: nothing changes and an error is reported; otherwise every sheet row is appended in order and the mark is set |
| Courses.ExpectedHeaders | main.py:170 | the six column headers an upload must have; `Courses.CourseTracker.SyncUpload` appends a sheet's rows only when its headers equal them |
| Courses.AddKeepsWellFormed | main.py:152-155 | appending a well-formed row keeps every row well formed |
| Courses.RemoveKeepsWellFormed | main.py:157-160 | Remove last row keeps every row well formed |
| Aggregate.InBucket | main.py:188-194 | which rows are counted (grade label known, grade points present, year among the categories) and which rows fall into each reporting bucket; the buckets are related in `Aggregate.BucketsDisjoint`, `Aggregate.CategoriesPartition` and `Aggregate.CompletedUnits` |
| Aggregate.Count | main.py:324-328 | the `len` of a bucket; `Aggregate.CountAppend`, `Aggregate.CountRemove` and `Aggregate.CategoriesPartition` state how it changes and how the buckets add up |
| Aggregate.Units | main.py:299-321 | the `sum` of a bucket's CUs; `Aggregate.UnitsAppend`, `Aggregate.UnitsRemove`, `Aggregate.UnitsWithinTotal` and `Aggregate.CompletedUnits` state its properties |
| Aggregate.WeightedPoints | main.py:299 | the `sum` of CUs times grade points over the counted rows; `Aggregate.WeightedPointsAppend`, `Aggregate.WeightedPointsRemove` and `Aggregate.WeightedPointsBounds` state its properties |
| Aggregate.Classify | main.py:306-317 | the classification chain; `Aggregate.ClassifyIsHighestReached` and `Aggregate.ClassifyMonotone` state what it means |
| Aggregate.Label | main.py:307-317 | the classification texts; `Aggregate.LabelNamesClassification` shows they are distinct and start with "Honours" exactly for the honours tiers |
| Aggregate.LabelNamesClassification | main.py:307-317 | two classifications are shown with the same text only if they are the same, and the text starts with "Honours" exactly for Honours, Merit, Distinction and Highest Distinction |
| Aggregate.RawGpa | main.py:299 | the unrounded GPA, defined only when the counted CUs are not 0; bounded in `Aggregate.GpaInRange` |
| Aggregate.Analyse | main.py:296-328 | View Analysis fails exactly when the counted CUs add up to 0; otherwise the final GPA and the display GPA are the 3-d.p. and 4-d.p. roundings of the unrounded GPA, and the classification is that of the final GPA |
| Aggregate.NoRowsNoUnits | main.py:299-300 | a bucket with no rows has 0 CUs |
| Aggregate.SomeRowsPositiveUnits | main.py:299-300 | when every row of a bucket has positive CUs, the bucket's CUs are positive exactly when it has a row |
| Aggregate.NoCountedRowFails | main.py:298-299 | with no counted row, View Analysis raises the division by zero |
| Aggregate.AnalysisOkIffCounted | main.py:298-299 | when every counted row has positive CUs, View Analysis succeeds exactly when some row is counted |
| Aggregate.ZeroUnitCourseFails | main.py:299 | a single counted 0-CU course graded A makes View Analysis fail, although a row is counted |
| Aggregate.ClassifyIsHighestReached | main.py:305-317 | the classification of a GPA is the highest tier whose closed lower threshold it reaches |
| Aggregate.ClassifyMonotone | main.py:305-317 | a higher GPA never gets a lower classification |
| Aggregate.ClosedLowerBoundary | main.py:306-317 | 3.500 is Merit and 3.499 is Honours; 4.500 is Highest Distinction and 1.999 is Below Graduation Threshold |
| Aggregate.RoundingIndependence | main.py:302-308 | the 3-d.p. and 4-d.p. values are both rounded from the unrounded GPA: 3.49966 is classified on 3.5 (Merit) but shown as 3.4997, which is not the 4-d.p. rounding of 3.5 |
| Aggregate.CountAppend | main.py:324-328 | appending a row adds one to a bucket's count exactly when the row is in that bucket |
| Aggregate.UnitsAppend | main.py:299-321 | appending a row adds its CUs to a bucket's CUs exactly when it is in that bucket |
| Aggregate.WeightedPointsAppend | main.py:299 | appending a row adds its CUs times its grade points to the weighted sum exactly when it is counted |
| Aggregate.CountRemove | main.py:160 | removing a row by value takes one off a bucket's count exactly when the row is in that bucket |
| Aggregate.UnitsRemove | main.py:160 | removing a row by value takes its CUs off a bucket's CUs exactly when it is in that bucket |
| Aggregate.WeightedPointsRemove | main.py:160 | removing a row by value takes its weighted points off the weighted sum exactly when it is counted |
| Aggregate.AnalysisAfterRemoveLast | main.py:157-160 | the analysis after Remove last row is the analysis of the list without its last position: the same GPA, classification, CUs and counts |
| Aggregate.WeightedPointsBounds | main.py:298-300 | with non-negative CUs and points on the scale, the weighted sum lies between 0 and 5 × the counted CUs |
| Aggregate.QuotientOnScale | main.py:299 | a weighted sum of at most 5 per CU, divided by the positive number of CUs, lies between 0 and 5 |
| Aggregate.GpaInRange | main.py:298-303 | with counted CUs positive, View Analysis succeeds and the GPA and both of its roundings lie between 0 and 5 |
| Aggregate.AppendUncountedRow | main.py:298-328 | a row dropped by `dropna` leaves the GPA, both roundings, the classification, the CUs used and count A unchanged; attempted grows by one; completed CUs grow by the row's CUs unless its grade does not complete |
| Aggregate.AddNonCountingCourse | main.py:152-155 | adding a course with a non-counting grade (S, U, CS, …) changes neither the GPA nor the CUs used for it |
| Aggregate.CompletedUnits | main.py:319-321 | "all CUs minus the CUs of U/CU/OVU/OVI/IC/IP/W rows" equals the CUs of the other rows |
| Aggregate.UnitsWithinTotal | main.py:319-321 | with non-negative CUs, the CUs of any selection of rows lie between 0 and the total |
| Aggregate.CompletedWithinTotal | main.py:319-321 | with non-negative CUs, the completed CUs lie between 0 and the total CUs |
| Aggregate.BucketsDisjoint | main.py:326-328 | no row is counted in two of B, C and D |
| Aggregate.CategoriesPartition | main.py:324-328 | on rows made by Add Course, A + B + C + D is the number of courses attempted |
| Aggregate.PartitionNeedsKnownYear | main.py:193-194 | an uploaded row with a counting grade but a year outside the categories is in none of A to D, so the label "A + B + C + D" can be wrong |
| Forecast.PlannableCourses | main.py:410 | the planner offers exactly the latest catalog's courses with non-zero CUs, with their catalog entries |
| Forecast.NewUnitsPositive | main.py:410-441 | with no negative CUs in the catalog, a non-empty selection of plannable courses has positive new CUs |
| Forecast.NewUnits | main.py:441 | the `sum` of the selected courses' CUs; `Forecast.NewUnitsPositive` shows it is positive for a non-empty selection |
| Forecast.SameGrade | main.py:454-456 | the same-grade scenario GPA; `Forecast.MixedBetween`, `Forecast.SameGradeMonotone`, `Forecast.SameGradeInRange` and `Forecast.BestAtLeastWorst` state its properties |
| Forecast.MixedGpa | main.py:455-456 | the unrounded mix of the current GPA and a grade point on the new CUs; `Forecast.MixedBetween`, `Forecast.SameGradeMonotone`, `Forecast.RequiredRoundTrip` and `Forecast.MeetingRequirementSecuresTier` state its properties |
| Forecast.MixedBetween | main.py:454-456 | the new GPA lies between the current GPA and the grade point earned on the new courses |
| Forecast.SameGradeMonotone | main.py:454-456 | a higher grade point on the new courses never lowers the scenario GPA |
| Forecast.SameGradeInRange | main.py:454-456 | with the current GPA and the grade point on the scale, the scenario GPA is on the scale |
| Forecast.BestAtLeastWorst | main.py:496-497 | the best case (all A+/A) is never below the worst case (all F) |
| Forecast.RequiredPoints | main.py:459-461 | the unrounded required average; `Forecast.RequiredRoundTrip` and `Forecast.RequiredIsLeast` show it is the least average that reaches the target |
| Forecast.Required | main.py:459-465 | the requirement is feasible exactly when there are new CUs and the unrounded average is within [0, 5]; a feasible value lies within [0, 5] |
| Forecast.RequiredRoundTrip | main.py:459-461 | earning the unrounded required average on every new course gives exactly the target GPA |
| Forecast.RequiredIsLeast | main.py:459-463 | an average on the new courses reaches the target exactly when it is at least the required average |
| Forecast.FeasibleIsRounded | main.py:462-463 | the feasible value shown is within 0.00005 of the unrounded required average |
| Forecast.ImpossibleCases | main.py:462-465 | "Impossible" with new CUs means that even all A+/A falls short of the target, or that even all F stays above it |
| Forecast.SecuredTierReportedImpossible | main.py:459-465 | a GPA of 5.0 over 100 CUs is reported "Impossible" for Pass with 4 new CUs, although even all F keeps it above 2.0 |
| Forecast.TiersMatchClassification | main.py:445-451 | each forecast threshold is classified as its own tier, every lower GPA as a lower classification, and the threshold survives 3-d.p. rounding |
| Forecast.HonoursClasses | main.py:445-451 | the five forecast tiers and their thresholds from the top; `Forecast.TiersMatchClassification` shows each agrees with the tracker's classification |
| Forecast.MeetingRequirementSecuresTier | main.py:445-465 | earning at least a tier's required average gives a 3-d.p. GPA classified at that tier or above |
| Forecast.Render | main.py:472-494 | the sentence shown for each kind of description; which description a value gets is `Forecast.GradeRange` |
| Forecast.BracketUnique | main.py:474-479 | at most one adjacent pair of grade points brackets a value |
| Forecast.BracketExists | main.py:474-479 | a value on the scale that is not a grade point is bracketed by some adjacent pair |
| Forecast.DescribesUnique | main.py:468-494 | a value has at most one letter-grade description |
| Forecast.NearerEndIsNearest | main.py:482-486 | the nearer end of the bracketing pair is at least as near to the value as every grade point |
| Forecast.NearerEndIsNearestKey | main.py:482-486 | the nearer end of the bracketing pair is a key of the reverse table and at least as near to the value as every key |
| Forecast.NearerLetter | main.py:482-486 | the "closer to" letter is the letter of the nearer end of the pair |
| Forecast.Between | main.py:479-486 | the description of a value bracketed by an adjacent pair; `Forecast.BracketUnique`, `Forecast.NearerLetter` and `Forecast.NearerIsNearest` state which pair and which letter it gives |
| Forecast.NearerIsNearest | main.py:482-486 | the "closer to" letter is the letter of the nearest of all ten grade points |
| Forecast.DescribesOnScale | main.py:468-494 | on the 0 to 5 scale a description is exact, exactly between or "closer to", never "at least"/"at most"; a "closer to" letter is that of the nearest grade point |
| Forecast.GradeRange | main.py:468-494 | the result is the description of the value: its letter when it is a grade point; else, on the scale, the bracketing pair with the tie or the nearer letter; "at least A+/A" above 5; "at most F" below 0 |
| Forecast.RunForecast | main.py:439-525 | nothing is forecast for an empty selection; otherwise the new and total CUs, the best and worst cases, and for every tier in order its requirement, with a description exactly when it is feasible |
| Forecast.ExampleHighestOutOfReach | main.py:459-465 | 4.0 over 60 CUs with 4 new CUs needs 12.0 for Highest Distinction, so it is reported "Impossible" |
| Forecast.ExampleHonoursExactlyBMinus | main.py:459-472 | 3.0 over 20 CUs with 4 new CUs: Merit is "Impossible", Honours needs exactly 3.0, which is described as exactly B- |
| Forecast.ExampleBetweenBMinusAndB | main.py:476-486 | 3.2 is described as between B- and B, closer to B- |

## Left out

- The Streamlit page is not modelled: widgets, messages, column layout, table display, metrics and `st.stop()`. A sheet with the wrong headers is modelled as the outcome `BadHeaders`, with the state left as it was.
- Fetching the catalog from the NUSMods API is not modelled. The catalog of an academic year is a parameter, and so are the current year and date.
- Reading an `.xlsx` upload is not modelled; the sheet is a parameter. Exporting the table and the statistics (Excel, plotly charts, PDF) is not modelled either. The `explain` page is prose only.
- Floating point: reals stand in for doubles. Rounding is half-up, while Python's `round` is half-even on binary doubles; the two differ only on exact ties. The exact tie test `abs(x - lower) == abs(x - upper)` is taken on reals.
- Missing values are modelled only in the grade, grade points and year columns. A row from an upload with a missing code, title or CU value is not modelled, though `dropna` would drop it as well.
- Courses.CourseTracker.RemoveLast: rows are compared by value, and a missing grade point equals a missing grade point. An empty "Grade Points" cell of an uploaded sheet becomes a NaN object, and Python's list comparison finds NaN equal only to the very same object. So with uploaded rows S, X, S′, where S and S′ are the same S-graded course with empty Grade Points cells, Python removes the last position and leaves [S, X]. The model removes S and leaves [X, S′]. Both leave the same multiset of rows and the same analysis; only the order differs.
- The forecast's `max_selections = 15` limit on the planner is not modelled; a selection of any length is accepted.
- AcademicYearProperties.AyRoundTrip: stated for current years 2019 to 9998. Up to 9998 every label year has four digits; past that the fixed cuts [3:7] and [8:] break. Years before 2019 are in the past of the clock the program reads.
- AcademicYearProperties.OptionLabelCuts: stated for label years 1000 to 9998, where both years of the label have four digits.
- AcademicYearProperties.LatestKeyBefore: stated for current years 2019 to 9998, for the same reasons as `AcademicYearProperties.AyRoundTrip`.
- AcademicYearProperties.LatestKeyAfter: stated for current years 2019 to 9998, for the same reasons as `AcademicYearProperties.AyRoundTrip`.
- AcademicYearProperties.LatestKeyIsDefaultKey: stated for current years 2019 to 9998, for the same reasons as `AcademicYearProperties.AyRoundTrip`.
