/** Decoding a student's MIS number into the branch and semester that pre-fill
    the resource query, and the guard that decides whether the page fetches
    resources on its own. The calendar year is a parameter: the page reads it
    from the wall clock. */
module MisDecoder {
  import opened Wrappers
  import opened JsBuiltins

  /** The branch table: branch code to branch name. */
  const BranchCodes: map<string, string> := map["03" := "Computer Engineering"]

  /** The branches the page's branch selector offers. */
  const Branches: seq<string> := ["Computer Engineering"]

  /** The semesters the page's semester selector offers. */
  const Semesters: seq<string> := ["2", "4", "6"]

  /** The fixed length of an MIS number. */
  const MisLength: nat := 9

  /** The result of decoding an MIS number. */
  datatype MisInfo = MisInfo(branch: string, semester: string)

  /** `BRANCH_CODES[code] || ""`: the name of a known code, the empty string for
      any other. (No two-character key names an inherited property of a
      JavaScript object, so the lookup is a plain table lookup.) */
  function BranchName(code: string): (name: string)
    ensures name == "Computer Engineering" <==> code == "03"
    ensures name == "" <==> code != "03"
    ensures name == "" || name in Branches
  {
    if code in BranchCodes then BranchCodes[code] else ""
  }

  /** `new Date().getFullYear() % 100`: the last two digits of the year, with
      JavaScript's remainder, which is negative for a negative year. */
  function CurrentYearTwoDigits(fullYear: int): (cy: int)
    ensures -100 < cy < 100
    ensures fullYear >= 0 ==> 0 <= cy && (fullYear - cy) % 100 == 0
  {
    JsRem(fullYear, 100)
  }

  /** `calculateSemester`: twice the years since admission, kept when it is 2, 4
      or 6 and otherwise replaced by "2". `None` is a NaN admission year, for
      which every comparison is false. */
  function CalculateSemester(admissionYear: Option<int>, fullYear: int): (r: string)
    ensures r in Semesters
  {
    match admissionYear
    case None => "2"
    case Some(year) =>
      var semester := (CurrentYearTwoDigits(fullYear) - year) * 2;
      if semester == 2 || semester == 4 || semester == 6 then DecimalString(semester) else "2"
  }

  /** With `d` the years elapsed since admission, the semester is the decimal
      form of `2 * d` exactly when `d` is 1, 2 or 3; every other difference
      (zero, negative, four or more) falls back to "2". */
  lemma CalculateSemesterCases(year: int, fullYear: int)
    ensures var d := CurrentYearTwoDigits(fullYear) - year;
      && (1 <= d <= 3 ==> CalculateSemester(Some(year), fullYear) == DecimalString(2 * d))
      && (!(1 <= d <= 3) ==> CalculateSemester(Some(year), fullYear) == "2")
      && (d == 1 ==> CalculateSemester(Some(year), fullYear) == "2")
      && (d == 2 ==> CalculateSemester(Some(year), fullYear) == "4")
      && (d == 3 ==> CalculateSemester(Some(year), fullYear) == "6")
  {
  }

  /** An unparseable admission year always gives the earliest semester. */
  lemma CalculateSemesterNaN(fullYear: int)
    ensures CalculateSemester(None, fullYear) == "2"
  {
  }

  /** `processMIS`: `None` for a missing MIS or one whose length is not 9;
      otherwise the branch of the code at positions 4..5 and the semester
      estimated from the year parsed out of positions 2..3. */
  function ProcessMIS(mis: Option<string>, fullYear: int): (r: Option<MisInfo>)
    ensures r.None? <==> mis.None? || |mis.value| != MisLength
    ensures r.Some? ==> (r.value.branch == "Computer Engineering" <==> mis.value[4..6] == "03")
    ensures r.Some? ==> (r.value.branch == "" <==> mis.value[4..6] != "03")
    ensures r.Some? ==> r.value.semester in Semesters
    ensures r.Some? ==> r.value.semester == CalculateSemester(ParseInt(mis.value[2..4]), fullYear)
  {
    match mis
    case None => None
    case Some(s) =>
      if |s| != MisLength then None
      else
        var year := ParseInt(s[2..4]);
        var branchCode := s[4..6];
        Some(MisInfo(BranchName(branchCode), CalculateSemester(year, fullYear)))
  }

  /** For an MIS whose year field holds two decimal digits, the semester is the
      one estimated from that two-digit year. */
  lemma ProcessMisYearDigits(mis: string, fullYear: int)
    requires |mis| == MisLength && IsDecimalDigit(mis[2]) && IsDecimalDigit(mis[3])
    ensures ProcessMIS(Some(mis), fullYear).Some?
    ensures ProcessMIS(Some(mis), fullYear).value.semester
         == CalculateSemester(Some(10 * DigitValue(mis[2]) + DigitValue(mis[3])), fullYear)
  {
    ParseYearField(mis);
  }

  lemma ParseYearField(mis: string)
    requires |mis| == MisLength && IsDecimalDigit(mis[2]) && IsDecimalDigit(mis[3])
    ensures ParseInt(mis[2..4]) == Some(10 * DigitValue(mis[2]) + DigitValue(mis[3]))
  {
    var field := [mis[2], mis[3]];
    assert mis[2..4] == field;
    ParseIntTwoDigits(field);
  }

  /** The admission year read from any well-sized MIS is NaN or lies in
      [-9, 99], so for a year in the current century the estimate only depends
      on a difference in (-100, 110). */
  lemma ProcessMisYearRange(mis: string)
    requires |mis| == MisLength
    ensures ParseInt(mis[2..4]).Some? ==> -9 <= ParseInt(mis[2..4]).value <= 99
  {
    ParseIntTwoCharRange(mis[2..4]);
  }

  /** The condition under which the page fetches resources on its own: a
      decoded MIS with a non-empty branch and a non-empty semester. The query
      it sends is the decoded record. */
  function AutoFetchQuery(mis: Option<string>, fullYear: int): (q: Option<MisInfo>)
    ensures q.Some? <==> mis.Some? && |mis.value| == MisLength && mis.value[4..6] == "03"
    ensures q.Some? ==> q.value.branch in Branches && q.value.semester in Semesters
    ensures q.Some? ==> q == ProcessMIS(mis, fullYear)
  {
    var info := ProcessMIS(mis, fullYear);
    if info.Some? && info.value.branch != "" && info.value.semester != "" then info else None
  }
}
