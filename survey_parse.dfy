/**
 * Parsing of a Qualtrics survey export into response records: the
 * multiple-choice field conversion, the fixed `Response` record shape and the
 * dropping of the leading metadata rows.
 */
module SurveyParse {
  import opened Text
  import opened Results

  /** Leading export rows that hold metadata rather than responses. */
  const METADATA_LINES: nat := 3

  /**
   * A field of a response: the raw text, or, for a "choose all that apply"
   * question, the list of the chosen answer codes.
   */
  datatype Value = Scalar(text: string) | Choices(codes: seq<string>)

  /** Number of fields of a `Response`, from `start_date` to `bogus4`. */
  const NUM_FIELDS: nat := 106

  /** Positions, counted from 0, of the fields the pruning and the analysis read. */
  const FINISHED: nat := 6  // finished
  const Q1_5: nat := 20     // q1_5
  const Q1_6: nat := 21     // q1_6
  const Q2_3: nat := 24     // q2_3
  const Q2_5: nat := 27     // q2_5
  const Q3_12: nat := 44    // q3_12
  const Q5_8: nat := 83     // q5_8
  const Q6_8: nat := 95     // q6_8

  /** A response: one value per field, in the column order of the export. */
  type Record = seq<Value>

  predicate WellFormed(r: Record)
  {
    |r| == NUM_FIELDS
  }

  predicate AllWellFormed(rs: seq<Record>)
  {
    forall r :: r in rs ==> WellFormed(r)
  }

  /** `\d` of the pattern, for ASCII digits. */
  predicate IsDigit(c: char)
  {
    '0' <= c <= '9'
  }

  /** `[\d,]*`: only digits and commas. */
  predicate DigitsAndCommas(t: string)
    decreases |t|
  {
    t == [] || ((IsDigit(t[0]) || t[0] == ',') && DigitsAndCommas(t[1..]))
  }

  /** `re.match("^\d,[\d,]*$", t)`: one digit, a comma, then only digits and commas. */
  predicate IsMultipleChoice(t: string)
  {
    |t| >= 2 && IsDigit(t[0]) && t[1] == ',' && DigitsAndCommas(t[2..])
  }

  /** What one raw field becomes: its comma-split list when the stripped text is a choice list. */
  function ClassifyField(field: string): Value
  {
    if IsMultipleChoice(Strip(field)) then Choices(Split(field, ',')) else Scalar(field)
  }

  /**
   * A field becomes a list exactly when its stripped text matches the pattern;
   * the list has at least two codes and joining them with commas gives back the
   * raw field, surrounding whitespace included. Any other field is kept verbatim.
   */
  lemma ClassifyFieldRoundTrip(field: string)
    ensures ClassifyField(field).Choices? <==> IsMultipleChoice(Strip(field))
    ensures ClassifyField(field).Scalar? ==> ClassifyField(field).text == field
    ensures ClassifyField(field).Choices? ==>
              |ClassifyField(field).codes| >= 2 && Join(ClassifyField(field).codes, ',') == field
  {
    if IsMultipleChoice(Strip(field)) {
      assert Strip(field)[1] == ',';
      StripKeepsCharacters(field, ',');
      SplitAtSeparator(field, ',');
      JoinSplit(field, ',');
    }
  }

  /** A single code, or a text whose second character is not a comma, stays a string. */
  lemma ClassifyFieldKeepsText()
    ensures ClassifyField("1") == Scalar("1")
    ensures ClassifyField("12,3") == Scalar("12,3")
    ensures ClassifyField("") == Scalar("")
  {
    assert !IsSpace('1') && !IsSpace('3');
    assert Strip("1") == "1";
    assert Strip("12,3") == "12,3";
  }

  /** A choice list is split on every comma, empty codes included. */
  lemma ClassifyFieldSplitsChoices()
    ensures ClassifyField("1,4,5") == Choices(["1", "4", "5"])
    ensures ClassifyField("1,") == Choices(["1", ""])
  {
    assert !IsSpace('1') && !IsSpace('5') && !IsSpace(',');
    assert Strip("1,4,5") == "1,4,5";
    assert DigitsAndCommas("4,5");
    assert Strip("1,") == "1,";
    assert Join(["1", "4", "5"], ',') == "1,4,5";
    SplitJoin(["1", "4", "5"], ',');
    assert Join(["1", ""], ',') == "1,";
    SplitJoin(["1", ""], ',');
  }

  /** The pattern is tested on the stripped text, but the raw text is what is split. */
  lemma ClassifyFieldSplitsRawText()
    ensures ClassifyField(" 1,2 ") == Choices([" 1", "2 "])
  {
    assert IsSpace(' ') && !IsSpace('1') && !IsSpace('2');
    assert Strip(" 1,2 ") == Strip("1,2 ") == Strip("1,2") == "1,2";
    assert DigitsAndCommas("2");
    assert Join([" 1", "2 "], ',') == " 1,2 ";
    SplitJoin([" 1", "2 "], ',');
  }

  /** A row of raw fields after the conversion loop. */
  function ConvertRow(row: seq<string>): (r: Record)
    ensures |r| == |row|
    decreases |row|
  {
    if row == [] then [] else [ClassifyField(row[0])] + ConvertRow(row[1..])
  }

  lemma {:induction false} ConvertRowAt(row: seq<string>, k: nat)
    requires k < |row|
    ensures ConvertRow(row)[k] == ClassifyField(row[k])
    decreases |row|
  {
    if k > 0 {
      ConvertRowAt(row[1..], k - 1);
    }
  }

  /**
   * The in-place conversion of one csv row: every field whose stripped text
   * matches the pattern is replaced by its comma-split list. The csv reader
   * hands over strings only.
   */
  method ConvertFields(row: array<Value>)
    requires forall k :: 0 <= k < row.Length ==> row[k].Scalar?
    modifies row
    ensures forall k :: 0 <= k < row.Length ==> row[k] == ClassifyField(old(row[k]).text)
  {
    ghost var raw := row[..];
    var i := 0;
    while i < row.Length
      invariant 0 <= i <= row.Length && |raw| == row.Length
      invariant forall k :: 0 <= k < |raw| ==> raw[k].Scalar? && raw[k] == old(row[k])
      invariant forall k :: 0 <= k < i ==> row[k] == ClassifyField(raw[k].text)
      invariant forall k :: i <= k < row.Length ==> row[k] == raw[k]
    {
      var field := row[i].text;
      row[i] := ClassifyField(field);
      i := i + 1;
    }
  }

  /** Every row of the export, converted, in input order. */
  function ConvertRows(rows: seq<seq<string>>): (r: seq<Record>)
    ensures |r| == |rows|
  {
    if rows == [] then [] else ConvertRows(rows[..|rows| - 1]) + [ConvertRow(rows[|rows| - 1])]
  }

  lemma {:induction false} ConvertRowsAt(rows: seq<seq<string>>, k: nat)
    requires k < |rows|
    ensures ConvertRows(rows)[k] == ConvertRow(rows[k])
  {
    if k < |rows| - 1 {
      ConvertRowsAt(rows[..|rows| - 1], k);
    }
  }

  /** One iteration of the read loop: the csv row as a list, converted in place. */
  method ReadRow(fields: seq<string>) returns (response: Record)
    ensures response == ConvertRow(fields)
  {
    var row := new Value[|fields|](k requires 0 <= k < |fields| => Scalar(fields[k]));
    ConvertFields(row);
    response := row[..];
    forall k | 0 <= k < |fields| ensures response[k] == ConvertRow(fields)[k] {
      ConvertRowAt(fields, k);
    }
  }

  /**
   * The read loop of `parse_data`: every csv row is converted and made a
   * Response, which fails on the first row whose field count is wrong.
   */
  method ReadResponses(rows: seq<seq<string>>) returns (result: Result<seq<Record>>)
    ensures result.Ok? <==> forall k :: 0 <= k < |rows| ==> |rows[k]| == NUM_FIELDS
    ensures result.Err? ==>
              && result.error.ArityMismatch?
              && result.error.row < |rows|
              && |rows[result.error.row]| != NUM_FIELDS
              && forall k :: 0 <= k < result.error.row ==> |rows[k]| == NUM_FIELDS
    ensures result.Ok? ==> result.value == ConvertRows(rows)
  {
    var responses: seq<Record> := [];
    var n := 0;
    while n < |rows|
      invariant 0 <= n <= |rows|
      invariant forall k :: 0 <= k < n ==> |rows[k]| == NUM_FIELDS
      invariant responses == ConvertRows(rows[..n])
    {
      var response := ReadRow(rows[n]);
      if |response| != NUM_FIELDS {
        return Err(ArityMismatch(n));
      }
      assert rows[..n + 1][..n] == rows[..n];
      responses := responses + [response];
      n := n + 1;
    }
    assert rows[..n] == rows;
    return Ok(responses);
  }

  /**
   * `parse_data` on the rows the csv reader yields: all rows are read as
   * responses, then the first METADATA_LINES are dropped and the rest kept in
   * input order.
   */
  method ParseData(rows: seq<seq<string>>) returns (result: Result<seq<Record>>)
    ensures result.Ok? <==> forall k :: 0 <= k < |rows| ==> |rows[k]| == NUM_FIELDS
    ensures result.Err? ==>
              && result.error.ArityMismatch?
              && result.error.row < |rows|
              && |rows[result.error.row]| != NUM_FIELDS
              && forall k :: 0 <= k < result.error.row ==> |rows[k]| == NUM_FIELDS
    ensures result.Ok? ==>
              && |result.value| == (if |rows| <= METADATA_LINES then 0 else |rows| - METADATA_LINES)
              && forall k :: 0 <= k < |result.value| ==>
                   result.value[k] == ConvertRow(rows[k + METADATA_LINES])
  {
    result := ReadResponses(rows);
    if result.Ok? {
      var responses := result.value;
      if |responses| <= METADATA_LINES {
        responses := [];
      } else {
        responses := responses[METADATA_LINES..];
        forall k | 0 <= k < |responses|
          ensures responses[k] == ConvertRow(rows[k + METADATA_LINES])
        {
          ConvertRowsAt(rows, k + METADATA_LINES);
        }
      }
      result := Ok(responses);
    }
  }
}
