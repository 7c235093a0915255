/**
 Schema inference of internal/api/sheets_smart.go (lines 36-119 and 137-314): the rule inferred for a column
 from its sampled cells, and the check of a proposed row against such rules.
 */
module SheetSchema {
  import opened Text
  import opened Sheet

  datatype ColumnType = Empty | Url | Number | Enum | Freetext

  datatype ColumnRule = ColumnRule(index: nat, kind: ColumnType, required: bool, enumValues: seq<string>)

  /** The sampled text of one column: trimmed, without the empty cells. */
  function Values(rows: seq<Row>, index: nat): (r: seq<string>)
    ensures |r| <= |rows|
  {
    if rows == [] then []
    else
      var v := CellStr(rows[|rows| - 1], index);
      Values(rows[..|rows| - 1], index) + if v != "" then [v] else []
  }

  /** Values and the number of rows agree just when no row is empty there. */
  lemma {:induction false} AllFilled(rows: seq<Row>, index: nat)
    ensures |Values(rows, index)| == |rows| <==> forall row :: row in rows ==> CellStr(row, index) != ""
  {
    hide CellStr;
    if rows != [] {
      var n := |rows| - 1;
      AllFilled(rows[..n], index);
      assert rows == rows[..n] + [rows[n]];
    }
  }

  lemma {:induction false} ValuesAreCells(rows: seq<Row>, index: nat)
    ensures forall v :: v in Values(rows, index) <==> v != "" && exists row :: row in rows && CellStr(row, index) == v
  {
    hide CellStr;
    if rows != [] {
      var n := |rows| - 1;
      ValuesAreCells(rows[..n], index);
      assert rows == rows[..n] + [rows[n]];
    }
  }

  // ---------------------------------------------------------------- kinds of text

  predicate HasPrefix(s: string, prefix: string) { prefix <= s }

  predicate IsUrl(s: string) { HasPrefix(s, "http://") || HasPrefix(s, "https://") }

  predicate IsDigit(c: char) { '0' <= c <= '9' }

  predicate NumericAt(s: string, i: nat)
    requires i < |s|
  {
    (s[i] == '-' && i == 0) || s[i] == '.' || IsDigit(s[i])
  }

  /** Digits with at most one point behind an optional sign; no digit is asked for. */
  predicate Numeric(s: string) {
    && s != ""
    && (forall i :: 0 <= i < |s| ==> NumericAt(s, i))
    && (forall i, j :: 0 <= i < j < |s| ==> !(s[i] == '.' && s[j] == '.'))
  }

  method IsNumeric(s: string) returns (b: bool)
    ensures b <==> Numeric(s)
  {
    if s == "" {
      return false;
    }
    var dotCount := 0;
    ghost var dot := 0;
    for i := 0 to |s|
      invariant forall j :: 0 <= j < i ==> NumericAt(s, j)
      invariant 0 <= dotCount <= 1
      invariant dotCount == 0 ==> forall j :: 0 <= j < i ==> s[j] != '.'
      invariant dotCount == 1 ==> 0 <= dot < i && s[dot] == '.' && forall j :: 0 <= j < i && j != dot ==> s[j] != '.'
    {
      var c := s[i];
      if c == '-' && i == 0 {
        continue;
      }
      if c == '.' {
        dotCount := dotCount + 1;
        if dotCount > 1 {
          return false;
        }
        dot := i;
        continue;
      }
      if c < '0' || c > '9' {
        assert !NumericAt(s, i);
        return false;
      }
    }
    return true;
  }

  lemma LongHasDigit(s: string)
    requires Numeric(s) && |s| > 2
    ensures IsDigit(s[1]) || IsDigit(s[2])
  {
    assert NumericAt(s, 1) && NumericAt(s, 2);
  }

  /** The texts without a digit that pass for numbers are exactly these three. */
  lemma DigitlessNumbers(s: string)
    ensures Numeric(s) && (forall c :: c in s ==> !IsDigit(c)) <==> s == "-" || s == "." || s == "-."
  {
    if Numeric(s) {
      assert NumericAt(s, 0) && s[0] in s;
      if |s| > 1 {
        assert NumericAt(s, 1) && s[1] in s && (s[0] != '.' || s[1] != '.');
      }
      if |s| > 2 {
        LongHasDigit(s);
        assert s[2] in s;
      }
    }
  }

  lemma {:induction false} DecimalIsNumeric(n: nat)
    ensures forall i :: 0 <= i < |Decimal(n)| ==> IsDigit(Decimal(n)[i])
  {
    if n >= 10 {
      DecimalIsNumeric(n / 10);
    }
  }

  /** Whole numbers, also negative ones, and decimal fractions are accepted. */
  lemma NumbersAreNumeric(n: nat, m: nat)
    ensures Numeric(Decimal(n)) && Numeric("-" + Decimal(n)) && Numeric(Decimal(n) + "." + Decimal(m))
  {
    hide Decimal, Numeric;
    DecimalIsNumeric(n);
    DecimalIsNumeric(m);
    DigitsAreNumeric(Decimal(n), Decimal(m));
  }

  lemma DigitsAreNumeric(s: string, t: string)
    requires s != "" && forall i :: 0 <= i < |s| ==> IsDigit(s[i])
    requires forall i :: 0 <= i < |t| ==> IsDigit(t[i])
    ensures Numeric(s) && Numeric("-" + s) && Numeric(s + "." + t)
  {
    var signed, fraction := "-" + s, s + "." + t;
    assert forall i :: 0 < i < |signed| ==> signed[i] == s[i - 1];
    assert forall i :: 0 <= i < |fraction| ==>
        fraction[i] == if i < |s| then s[i] else if i == |s| then '.' else t[i - |s| - 1];
  }

  /** Nothing but digits, points and a minus in front is accepted, and two points never are. */
  lemma NumericHasOnly(s: string, i: nat, j: nat)
    requires Numeric(s) && i < |s| && i < j < |s|
    ensures s[i] in "0123456789.-" && s[j] in "0123456789." && !(s[i] == '.' && s[j] == '.')
    ensures i > 0 ==> s[i] != '-'
  {
    assert NumericAt(s, i) && NumericAt(s, j);
    DigitIsListed(s[i]);
    DigitIsListed(s[j]);
  }

  lemma DigitIsListed(c: char)
    ensures IsDigit(c) ==> c in DIGITS
  {
    if IsDigit(c) {
      assert DIGITS[c as int - '0' as int] == c;
    }
  }

  // ---------------------------------------------------------------- distinct values

  /** The values in the order of their first occurrence. */
  function Unique(values: seq<string>): seq<string> {
    if values == [] then []
    else
      var before := Unique(values[..|values| - 1]);
      var last := values[|values| - 1];
      if last in values[..|values| - 1] then before else before + [last]
  }

  method UniqueValues(values: seq<string>) returns (result: seq<string>)
    ensures result == Unique(values)
  {
    var seen: set<string> := {};
    result := [];
    for i := 0 to |values|
      invariant result == Unique(values[..i])
      invariant forall v :: v in seen <==> v in values[..i]
    {
      var v := values[i];
      assert values[..i + 1] == values[..i] + [v] && values[..i + 1][..i] == values[..i];
      if v !in seen {
        seen := seen + {v};
        result := result + [v];
      }
    }
    assert values[..|values|] == values;
  }

  predicate Distinct(s: seq<string>) { forall i, j :: 0 <= i < j < |s| ==> s[i] != s[j] }

  lemma {:induction false} UniqueIsDistinct(values: seq<string>)
    ensures Distinct(Unique(values))
    ensures forall v :: v in Unique(values) <==> v in values
    ensures |Unique(values)| <= |values|
    ensures |Unique(values)| < |values| <==> !Distinct(values)
  {
    if values != [] {
      var n := |values| - 1;
      UniqueIsDistinct(values[..n]);
      assert values == values[..n] + [values[n]];
      if values[n] in values[..n] {
        var i :| 0 <= i < n && values[..n][i] == values[n];
        assert values[i] == values[n];
      }
    }
  }

  // ---------------------------------------------------------------- inference

  function CountOf(p: string -> bool, s: seq<string>): (n: nat)
    ensures n <= |s|
    ensures n == |s| <==> forall v :: v in s ==> p(v)
  {
    if s == [] then 0
    else
      var last := s[|s| - 1];
      assert s == s[..|s| - 1] + [last];
      CountOf(p, s[..|s| - 1]) + if p(last) then 1 else 0
  }

  /** The type of a column: mostly URLs, all numbers, few values with a repetition, or anything. */
  function Inferred(values: seq<string>): ColumnType {
    if values == [] then Empty
    else if 2 * CountOf(IsUrl, values) > |values| then Url
    else if CountOf(Numeric, values) == |values| then Number
    else if |Unique(values)| <= 5 && !Distinct(values) then Enum
    else Freetext
  }

  /** How many different values there are. */
  lemma {:induction false} UniqueSize(values: seq<string>)
    ensures |Unique(values)| == |set v | v in values|
  {
    if values != [] {
      var n := |values| - 1;
      UniqueSize(values[..n]);
      assert values == values[..n] + [values[n]];
      OneValueMore(values[..n], values[n]);
    }
  }

  lemma OneValueMore(values: seq<string>, last: string)
    ensures |set v | v in values + [last]| == |set v | v in values| + if last in values then 0 else 1
  {
    var before, after := set v | v in values, set v | v in values + [last];
    assert after == before + {last};
  }

  lemma NumbersAreNoUrls(s: string)
    requires Numeric(s)
    ensures !IsUrl(s)
  {
    assert NumericAt(s, 0);
  }

  lemma NoUrlsAmongNumbers(values: seq<string>)
    requires forall v :: v in values ==> Numeric(v)
    ensures CountOf(IsUrl, values) == 0
  {
    hide Numeric, IsUrl;
    if values != [] {
      assert values == values[..|values| - 1] + [values[|values| - 1]];
      NumbersAreNoUrls(values[|values| - 1]);
      NoUrlsAmongNumbers(values[..|values| - 1]);
    }
  }

  /**
   The type of a column by its sampled values: numbers exactly when there are some and all are numeric, else an
   enum exactly when they repeat, are not mostly URLs and at most five different ones.
   */
  lemma KindsExactly(values: seq<string>)
    ensures Inferred(values) == Empty <==> values == []
    ensures Inferred(values) == Url <==> 2 * CountOf(IsUrl, values) > |values|
    ensures Inferred(values) == Number <==> values != [] && forall v :: v in values ==> Numeric(v)
    ensures Inferred(values) == Enum <==> Inferred(values) != Url && Inferred(values) != Number
                                          && |set v | v in values| <= 5 && !Distinct(values)
  {
    hide Numeric, IsUrl, Unique, Distinct;
    UniqueSize(values);
    if values != [] && forall v :: v in values ==> Numeric(v) {
      NoUrlsAmongNumbers(values);
    }
    if values == [] {
      NothingIsDistinct();
    }
  }

  lemma NothingIsDistinct()
    ensures Distinct([])
  {}

  /** The rule for a column; `hinted` says that its header calls it optional. */
  predicate IsRuleFor(rule: ColumnRule, index: nat, hinted: bool, rows: seq<Row>) {
    var values := Values(rows, index);
    && rule.index == index
    && rule.kind == Inferred(values)
    && rule.enumValues == (if rule.kind == Enum then Unique(values) else [])
    && rule.required == (rows != [] && |values| == |rows| && !(rule.kind == Freetext && hinted))
  }

  /** A column is required exactly when every sampled cell is filled, and it is not free text called optional. */
  lemma RequiredExactly(rule: ColumnRule, hinted: bool, rows: seq<Row>)
    requires IsRuleFor(rule, rule.index, hinted, rows)
    ensures rule.required <==> rows != [] && (forall row :: row in rows ==> CellStr(row, rule.index) != "")
                               && !(rule.kind == Freetext && hinted)
  {
    hide CellStr, Inferred;
    AllFilled(rows, rule.index);
  }

  method CountUrls(values: seq<string>) returns (n: nat)
    ensures n == CountOf(IsUrl, values)
  {
    n := 0;
    for i := 0 to |values|
      invariant n == CountOf(IsUrl, values[..i])
    {
      assert values[..i + 1][..i] == values[..i];
      if HasPrefix(values[i], "http://") || HasPrefix(values[i], "https://") {
        n := n + 1;
      }
    }
    assert values[..|values|] == values;
  }

  method CountNumbers(values: seq<string>) returns (n: nat)
    ensures n == CountOf(Numeric, values)
  {
    hide Numeric;
    n := 0;
    for i := 0 to |values|
      invariant n == CountOf(Numeric, values[..i])
    {
      assert values[..i + 1][..i] == values[..i];
      var numeric := IsNumeric(values[i]);
      if numeric {
        n := n + 1;
      }
    }
    assert values[..|values|] == values;
  }

  method CollectValues(index: nat, rows: seq<Row>) returns (values: seq<string>, filled: nat)
    ensures values == Values(rows, index) && filled == |values|
  {
    hide TrimSpace;
    values, filled := [], 0;
    for i := 0 to |rows|
      invariant values == Values(rows[..i], index) && filled == |values|
    {
      var row := rows[i];
      assert rows[..i + 1][..i] == rows[..i];
      if index < |row| {
        var v := TrimSpace(row[index].text);
        if v != "" {
          values := values + [v];
          filled := filled + 1;
        }
      }
    }
    assert rows[..|rows|] == rows;
  }

  method AnalyzeColumn(index: nat, hinted: bool, rows: seq<Row>) returns (col: ColumnRule)
    ensures IsRuleFor(col, index, hinted, rows)
  {
    hide Values, CountOf, Unique, Distinct;
    var values, filled := CollectValues(index, rows);
    var total := |rows|;
    col := ColumnRule(index, Empty, filled == total && total > 0, []);
    if |values| == 0 {
      return;
    }
    var unique := UniqueValues(values);
    UniqueIsDistinct(values);
    var urlCount := CountUrls(values);
    if urlCount > |values| / 2 {
      return col.(kind := Url);
    }
    var numCount := CountNumbers(values);
    if numCount == |values| {
      return col.(kind := Number);
    }
    if |unique| <= 5 && |unique| < |values| {
      return col.(kind := Enum, enumValues := unique);
    }
    col := col.(kind := Freetext);
    if hinted {
      col := col.(required := false);
    }
  }

  /** How many rows are sampled. */
  function SampleSize(sampleRows: int, available: nat): nat {
    var n := if sampleRows <= 0 then 20 else sampleRows;
    if available > n then n else available
  }

  /** At most twenty rows unless another number is asked for, and all there are when there are fewer. */
  lemma SampleSizeExactly(sampleRows: int, available: nat)
    ensures var n := SampleSize(sampleRows, available);
            && n <= available && n <= (if sampleRows > 0 then sampleRows else 20)
            && (n == available || n == if sampleRows > 0 then sampleRows else 20)
  {}

  /** The rules of a sheet: one for each header cell, from the sampled rows. */
  predicate IsSchema(columns: seq<ColumnRule>, headers: Row, hinted: string -> bool, rows: seq<Row>) {
    && |columns| == |headers|
    && forall i :: 0 <= i < |columns| ==> IsRuleFor(columns[i], i, hinted(headers[i].text), rows)
  }

  /** DescribeSheet after the read; `hinted` tells from a header whether it calls its column optional. */
  method DescribeSheet(data: seq<Row>, sampleRows: int, hinted: string -> bool) returns (r: Option<seq<ColumnRule>>)
    ensures r.None? <==> data == []
    ensures r.Some? ==> IsSchema(r.value, data[0], hinted, data[1..][..SampleSize(sampleRows, |data| - 1)])
  {
    hide IsRuleFor;
    if |data| < 1 {
      return None;
    }
    var sample := sampleRows;
    if sample <= 0 {
      sample := 20;
    }
    var headers, rows := data[0], data[1..];
    if |rows| > sample {
      rows := rows[..sample];
    }
    assert rows == data[1..][..SampleSize(sampleRows, |data| - 1)];
    var columns: seq<ColumnRule> := [];
    for i := 0 to |headers|
      invariant |columns| == i
      invariant forall j :: 0 <= j < i ==> IsRuleFor(columns[j], j, hinted(headers[j].text), rows)
    {
      var col := AnalyzeColumn(i, hinted(headers[i].text), rows);
      columns := columns + [col];
    }
    r := Some(columns);
  }

  // ---------------------------------------------------------------- validation

  datatype Issue = RequiredEmpty | NotAllowed | NotUrl | NotNumber

  datatype ValidationIssue = ValidationIssue(index: nat, value: string, issue: Issue)

  datatype ValidationResult = ValidationResult(valid: bool, issues: seq<ValidationIssue>)

  /** The cell a rule looks at, not trimmed. */
  function RawCell(row: Row, index: nat): string {
    if index < |row| then row[index].text else ""
  }

  predicate Allowed(enumValues: seq<string>, value: string, fold: (string, string) -> bool) {
    exists i :: 0 <= i < |enumValues| && fold(value, enumValues[i])
  }

  /** What is wrong with a value; `fold` is equality up to case. */
  function Complaint(col: ColumnRule, value: string, fold: (string, string) -> bool): Option<Issue> {
    if value == "" then (if col.required then Some(RequiredEmpty) else None)
    else if col.kind == Enum && !Allowed(col.enumValues, value, fold) then Some(NotAllowed)
    else if col.kind == Url && !IsUrl(value) then Some(NotUrl)
    else if col.kind == Number && !Numeric(value) then Some(NotNumber)
    else None
  }

  predicate Accepts(col: ColumnRule, value: string, fold: (string, string) -> bool) {
    Complaint(col, value, fold).None?
  }

  method ValidateCell(col: ColumnRule, value: string, fold: (string, string) -> bool) returns (issue: Option<Issue>)
    ensures issue == Complaint(col, value, fold)
  {
    hide Numeric, IsUrl;
    if col.required && value == "" {
      return Some(RequiredEmpty);
    }
    if value == "" {
      return None;
    }
    match col.kind {
      case Enum =>
        var found := false;
        for i := 0 to |col.enumValues|
          invariant !found && forall j :: 0 <= j < i ==> !fold(value, col.enumValues[j])
        {
          if fold(value, col.enumValues[i]) {
            found := true;
            break;
          }
        }
        if !found {
          return Some(NotAllowed);
        }
      case Url =>
        var isUrl := IsUrl(value);
        if !isUrl {
          return Some(NotUrl);
        }
      case Number =>
        var numeric := IsNumeric(value);
        if !numeric {
          return Some(NotNumber);
        }
      case _ =>
    }
    return None;
  }

  /** What a column of this type takes in a cell that is filled. */
  predicate Takes(col: ColumnRule, value: string, fold: (string, string) -> bool) {
    match col.kind
    case Number => Numeric(value)
    case Url => HasPrefix(value, "http://") || HasPrefix(value, "https://")
    case Enum => exists i :: 0 <= i < |col.enumValues| && fold(value, col.enumValues[i])
    case _ => true
  }

  /** A rule refuses an empty cell exactly when the column is required, and a filled one exactly by its type. */
  lemma RefusesExactly(col: ColumnRule, value: string, fold: (string, string) -> bool)
    ensures Accepts(col, value, fold) <==> if value == "" then !col.required else Takes(col, value, fold)
    ensures Complaint(col, value, fold).Some? ==>
              Complaint(col, value, fold).value == if value == "" then RequiredEmpty
                                                   else if col.kind == Number then NotNumber
                                                   else if col.kind == Url then NotUrl else NotAllowed
  {
    hide Numeric;
  }

  /** The issues of a row: one for each rule that its cell breaks, in column order. */
  function Issues(columns: seq<ColumnRule>, row: Row, fold: (string, string) -> bool): seq<ValidationIssue> {
    if columns == [] then []
    else
      var col := columns[|columns| - 1];
      var value := RawCell(row, col.index);
      var complaint := Complaint(col, value, fold);
      Issues(columns[..|columns| - 1], row, fold) +
      if complaint.Some? then [ValidationIssue(col.index, value, complaint.value)] else []
  }

  lemma {:induction false} NoIssuesIffAccepted(columns: seq<ColumnRule>, row: Row, fold: (string, string) -> bool)
    ensures Issues(columns, row, fold) == [] <==>
            forall col :: col in columns ==> Accepts(col, RawCell(row, col.index), fold)
  {
    hide Complaint, RawCell;
    if columns != [] {
      var n := |columns| - 1;
      NoIssuesIffAccepted(columns[..n], row, fold);
      assert columns == columns[..n] + [columns[n]];
    }
  }

  /** What the row says about the column, if the rule refuses its cell. */
  predicate IssueOf(issue: ValidationIssue, col: ColumnRule, row: Row, fold: (string, string) -> bool) {
    && Complaint(col, RawCell(row, col.index), fold) == Some(issue.issue)
    && issue.index == col.index && issue.value == RawCell(row, col.index)
  }

  /** Every issue is one rule's refusal of its own cell, and every refusal is an issue. */
  lemma {:induction false} IssuesExactly(columns: seq<ColumnRule>, row: Row, fold: (string, string) -> bool,
                                         issue: ValidationIssue)
    ensures issue in Issues(columns, row, fold) <==> exists col :: col in columns && IssueOf(issue, col, row, fold)
  {
    hide Complaint, RawCell;
    if columns != [] {
      var n := |columns| - 1;
      IssuesExactly(columns[..n], row, fold, issue);
      assert columns == columns[..n] + [columns[n]];
      assert issue in Issues(columns, row, fold) <==>
             issue in Issues(columns[..n], row, fold) || IssueOf(issue, columns[n], row, fold);
    }
  }

  method ValidateRow(columns: seq<ColumnRule>, row: Row, fold: (string, string) -> bool)
    returns (result: ValidationResult)
    ensures result.issues == Issues(columns, row, fold)
    ensures result.valid <==> forall col :: col in columns ==> Accepts(col, RawCell(row, col.index), fold)
  {
    hide Complaint;
    result := ValidationResult(true, []);
    for i := 0 to |columns|
      invariant result.issues == Issues(columns[..i], row, fold)
      invariant result.valid <==> result.issues == []
    {
      var col := columns[i];
      assert columns[..i + 1][..i] == columns[..i];
      var value := if col.index < |row| then row[col.index].text else "";
      var issue := ValidateCell(col, value, fold);
      if issue.Some? {
        result := ValidationResult(false, result.issues + [ValidationIssue(col.index, value, issue.value)]);
      }
    }
    assert columns[..|columns|] == columns;
    NoIssuesIffAccepted(columns, row, fold);
  }

  // ---------------------------------------------------------------- inferred rules and their own samples

  /** What is needed of equality up to case: it is reflexive and leaves white space alone. */
  ghost predicate Folding(fold: (string, string) -> bool) {
    && (forall s :: fold(s, s))
    && (forall s, t :: fold(s, t) ==> (Trimmed(s) <==> Trimmed(t)))
  }

  lemma NumericIsTrimmed(s: string)
    requires Numeric(s)
    ensures Trimmed(s)
  {
    assert NumericAt(s, 0) && NumericAt(s, |s| - 1);
  }

  /** A cell of the sample: its trimmed text is among the values or empty, and then the column is optional. */
  lemma SampledCell(rule: ColumnRule, hinted: bool, rows: seq<Row>, row: Row)
    requires IsRuleFor(rule, rule.index, hinted, rows) && row in rows
    ensures var v := CellStr(row, rule.index); if v == "" then !rule.required else v in Values(rows, rule.index)
    ensures CellStr(row, rule.index) == TrimSpace(RawCell(row, rule.index))
  {
    AllFilled(rows, rule.index);
    ValuesAreCells(rows, rule.index);
  }

  lemma EnumAcceptsIffTrimmed(rule: ColumnRule, hinted: bool, rows: seq<Row>, row: Row, fold: (string, string) -> bool)
    requires IsRuleFor(rule, rule.index, hinted, rows) && row in rows && Folding(fold) && rule.kind == Enum
    requires RawCell(row, rule.index) != ""
    ensures Allowed(rule.enumValues, RawCell(row, rule.index), fold) <==> Trimmed(RawCell(row, rule.index))
  {
    hide TrimSpace, Trimmed, Values, Unique, Distinct, Inferred;
    var raw := RawCell(row, rule.index);
    var values := Values(rows, rule.index);
    SampledCell(rule, hinted, rows, row);
    UniqueIsDistinct(values);
    if Trimmed(raw) {
      assert raw in rule.enumValues;
    }
    if Allowed(rule.enumValues, raw, fold) {
      var i :| 0 <= i < |rule.enumValues| && fold(raw, rule.enumValues[i]);
      assert rule.enumValues[i] in values;
      ValuesAreTrimmed(rows, rule.index, rule.enumValues[i]);
    }
  }

  lemma ValuesAreTrimmed(rows: seq<Row>, index: nat, v: string)
    requires v in Values(rows, index)
    ensures Trimmed(v) && v != ""
  {
    ValuesAreCells(rows, index);
  }

  lemma NumberAcceptsIffTrimmed(rule: ColumnRule, hinted: bool, rows: seq<Row>, row: Row)
    requires IsRuleFor(rule, rule.index, hinted, rows) && row in rows && rule.kind == Number
    requires RawCell(row, rule.index) != ""
    ensures Numeric(RawCell(row, rule.index)) <==> Trimmed(RawCell(row, rule.index))
  {
    hide TrimSpace, Trimmed, Values, Numeric, Unique;
    var raw := RawCell(row, rule.index);
    SampledCell(rule, hinted, rows, row);
    if Numeric(raw) {
      NumericIsTrimmed(raw);
    }
  }

  /** Whether a sampled cell passes, by the kind of its column: told from the cell alone. */
  predicate Passes(kind: ColumnType, raw: string) {
    match kind
    case Freetext => true
    case Empty => true
    case Url => raw == "" || IsUrl(raw)
    case _ => Trimmed(raw)
  }

  /**
   A rule accepts a row it was inferred from exactly when the row's cell passes: always in free text and empty
   columns, when trimmed in number and enum columns, and when empty or a URL itself in url columns.
   */
  lemma SamplePassesExact(rule: ColumnRule, hinted: bool, rows: seq<Row>, row: Row, fold: (string, string) -> bool)
    requires IsRuleFor(rule, rule.index, hinted, rows) && row in rows && Folding(fold)
    ensures Accepts(rule, RawCell(row, rule.index), fold) <==> Passes(rule.kind, RawCell(row, rule.index))
  {
    hide TrimSpace, Values, Numeric, IsUrl, Unique, Inferred, Allowed, Folding;
    var raw := RawCell(row, rule.index);
    SampledCell(rule, hinted, rows, row);
    if raw == "" {
      EmptyIsTrimmed();
      assert TrimSpace(raw) == raw;
    } else if rule.kind == Enum {
      EnumAcceptsIffTrimmed(rule, hinted, rows, row, fold);
    } else if rule.kind == Number {
      NumberAcceptsIffTrimmed(rule, hinted, rows, row);
    }
  }

  predicate TrimmedRow(row: Row) { forall i :: 0 <= i < |row| ==> Trimmed(row[i].text) }

  /** The sampled cell of a url column that is filled, but not with a URL. */
  predicate StrayInUrl(col: ColumnRule, row: Row) {
    col.kind == Url && RawCell(row, col.index) != "" && !IsUrl(RawCell(row, col.index))
  }

  /** Of a trimmed row that was sampled, a schema complains exactly about what strays into its url columns. */
  lemma SampledRowIssues(columns: seq<ColumnRule>, headers: Row, hinted: string -> bool, rows: seq<Row>,
                         row: Row, fold: (string, string) -> bool, col: ColumnRule)
    requires IsSchema(columns, headers, hinted, rows) && Folding(fold)
    requires row in rows && TrimmedRow(row) && col in columns
    ensures Accepts(col, RawCell(row, col.index), fold) <==> !StrayInUrl(col, row)
  {
    hide IsRuleFor, Accepts, Folding, Trimmed, IsUrl;
    var i :| 0 <= i < |columns| && columns[i] == col;
    RuleIndex(col, i, hinted(headers[i].text), rows);
    EmptyIsTrimmed();
    SamplePassesExact(col, hinted(headers[i].text), rows, row, fold);
  }

  /** So it accepts the row exactly when nothing strays. */
  lemma SampledRowsAreValid(columns: seq<ColumnRule>, headers: Row, hinted: string -> bool, rows: seq<Row>,
                            row: Row, fold: (string, string) -> bool)
    requires IsSchema(columns, headers, hinted, rows) && Folding(fold)
    requires row in rows && TrimmedRow(row)
    ensures Issues(columns, row, fold) == [] <==> forall col :: col in columns ==> !StrayInUrl(col, row)
  {
    hide Accepts, Issues, Folding, IsSchema, TrimmedRow, StrayInUrl;
    forall col | col in columns ensures Accepts(col, RawCell(row, col.index), fold) <==> !StrayInUrl(col, row) {
      SampledRowIssues(columns, headers, hinted, rows, row, fold, col);
    }
    NoIssuesIffAccepted(columns, row, fold);
  }

  lemma RuleIndex(col: ColumnRule, index: nat, hinted: bool, rows: seq<Row>)
    requires IsRuleFor(col, index, hinted, rows)
    ensures col.index == index
  {}

  lemma EmptyIsTrimmed()
    ensures Trimmed("")
  {}

  /** The raw cells of a column that are not empty. */
  function FilledCells(rows: seq<Row>, index: nat): seq<string> {
    if rows == [] then []
    else
      var raw := RawCell(rows[|rows| - 1], index);
      FilledCells(rows[..|rows| - 1], index) + if raw != "" then [raw] else []
  }

  predicate TrimmedColumn(rows: seq<Row>, index: nat) {
    forall i :: 0 <= i < |rows| ==> Trimmed(RawCell(rows[i], index))
  }

  lemma {:induction false} TrimmedColumnValues(rows: seq<Row>, index: nat)
    requires TrimmedColumn(rows, index)
    ensures FilledCells(rows, index) == Values(rows, index)
  {
    hide TrimSpace, Trimmed;
    if rows != [] {
      var n := |rows| - 1;
      assert forall i :: 0 <= i < n ==> rows[..n][i] == rows[i];
      TrimmedColumnValues(rows[..n], index);
      EmptyIsTrimmed();
      assert Trimmed(RawCell(rows[n], index));
      assert TrimSpace(RawCell(rows[n], index)) == RawCell(rows[n], index);
    }
  }

  lemma {:induction false} CountSame(p: string -> bool, q: string -> bool, s: seq<string>)
    requires forall v :: v in s ==> p(v) == q(v)
    ensures CountOf(p, s) == CountOf(q, s)
  {
    if s != [] {
      var n := |s| - 1;
      assert s == s[..n] + [s[n]];
      CountSame(p, q, s[..n]);
    }
  }

  /** A rule inferred as url accepts strictly more than half of the column's filled cells. */
  lemma UrlAcceptsMost(rule: ColumnRule, hinted: bool, rows: seq<Row>, fold: (string, string) -> bool)
    requires IsRuleFor(rule, rule.index, hinted, rows) && TrimmedColumn(rows, rule.index) && rule.kind == Url
    ensures var cells := FilledCells(rows, rule.index);
            2 * CountOf(v => Accepts(rule, v, fold), cells) > |cells|
  {
    hide Trimmed, Values, TrimmedColumn, IsUrl;
    TrimmedColumnValues(rows, rule.index);
    var cells := FilledCells(rows, rule.index);
    forall v | v in cells ensures IsUrl(v) == Accepts(rule, v, fold) {
      CellIsFilled(rows, rule.index, v);
    }
    CountSame(IsUrl, v => Accepts(rule, v, fold), cells);
  }

  lemma CellIsFilled(rows: seq<Row>, index: nat, v: string)
    requires v in FilledCells(rows, index)
    ensures v != ""
  {
    if rows != [] && v in FilledCells(rows[..|rows| - 1], index) {
      CellIsFilled(rows[..|rows| - 1], index, v);
    }
  }

  /** A url column can reject one of its own samples: any trimmed text that is no URL, beside two links. */
  lemma UrlCanRejectASample(link: string, note: string, fold: (string, string) -> bool)
    returns (rule: ColumnRule, rows: seq<Row>)
    requires IsUrl(link) && !IsUrl(note) && Trimmed(link) && Trimmed(note) && note != ""
    ensures IsRuleFor(rule, 0, false, rows) && TrimmedColumn(rows, 0)
    ensures rows == [[Cell(link)], [Cell(link)], [Cell(note)]] && !Accepts(rule, note, fold)
  {
    hide IsUrl, TrimSpace, Trimmed, Values, CountOf, Unique;
    rows := [[Cell(link)], [Cell(link)], [Cell(note)]];
    rule := ColumnRule(0, Url, true, []);
    TwoLinksAndANote(rows, link, note);
  }

  lemma TwoLinksAndANote(rows: seq<Row>, link: string, note: string)
    requires IsUrl(link) && !IsUrl(note) && Trimmed(link) && Trimmed(note) && note != ""
    requires rows == [[Cell(link)], [Cell(link)], [Cell(note)]]
    ensures Values(rows, 0) == [link, link, note] && CountOf(IsUrl, [link, link, note]) == 2
  {
    hide IsUrl, TrimSpace, Trimmed, Values, CountOf;
    UrlIsText(link);
    NoValues();
    var one, two := [[Cell(link)]], [[Cell(link)], [Cell(link)]];
    assert one == [] + [[Cell(link)]] && two == one + [[Cell(link)]] && rows == two + [[Cell(note)]];
    ValuesMore([], link);
    ValuesMore(one, link);
    ValuesMore(two, note);
    assert [] + [link] == [link] && [link] + [link] == [link, link] && [link, link] + [note] == [link, link, note];
    CountMore([], link);
    CountMore([link], link);
    CountMore([link, link], note);
  }

  lemma NoValues()
    ensures Values([], 0) == [] && CountOf(IsUrl, []) == 0
  {}

  lemma UrlIsText(s: string)
    requires IsUrl(s)
    ensures s != ""
  {}

  lemma ValuesMore(rows: seq<Row>, text: string)
    requires Trimmed(text) && text != ""
    ensures Values(rows + [[Cell(text)]], 0) == Values(rows, 0) + [text]
  {
    hide TrimSpace, Trimmed;
    assert (rows + [[Cell(text)]])[..|rows|] == rows;
  }

  lemma CountMore(s: seq<string>, v: string)
    ensures CountOf(IsUrl, s + [v]) == CountOf(IsUrl, s) + if IsUrl(v) then 1 else 0
  {
    hide IsUrl;
    assert (s + [v])[..|s|] == s;
  }
}
