/** The spreadsheet importer: from the grid of cells the Sheets API returns
    to header-keyed rows, certificates, a lookup by id and the validation of
    the sheet's layout. The HTTP request itself is not modelled; every
    operation starts from the `Response` it produced. */
module GoogleSheets {
  import opened Wrappers
  import opened JsStrings
  import opened JsArrays
  import opened CertificateTypes

  /** One data row: column name to cell text. */
  type Row = map<string, string>

  /** The cells of the sheet, row by row; row 0 holds the column names. */
  type Grid = seq<seq<string>>

  /** What the request produced. `Delivered` carries the `values` of the
      response body (a body without `values` is the empty grid);
      `Unreachable` stands for a rejected request, a status that is not OK
      or a body that is not JSON. */
  datatype Response = Delivered(values: Grid) | Unreachable

  // ---------------------------------------------------------------------
  // Grid to rows
  // ---------------------------------------------------------------------

  /** `row[index] || ""`: the cell, or "" beyond the end of a short row. */
  function Cell(row: seq<string>, index: nat): string {
    if index < |row| then row[index] else ""
  }

  /** No later column carries the same name as column `i`. */
  ghost predicate IsLastOccurrence(headers: seq<string>, i: nat) {
    forall j :: i < j < |headers| ==> headers[j] != headers[i]
  }

  /** The object built for one data row: one key per column name, bound to
      the cell under that column; cells beyond the header are dropped
      (`RowObjectKeys`, `RowObjectLast`). */
  function RowObject(headers: seq<string>, row: seq<string>): Row
  {
    if |headers| == 0 then map[]
    else
      var n := |headers| - 1;
      assert headers == headers[..n] + [headers[n]];
      RowObject(headers[..n], row)[headers[n] := Cell(row, n)]
  }

  /** Every column name is a key of the row object, and nothing else is. */
  lemma {:induction false} RowObjectKeys(headers: seq<string>, row: seq<string>)
    ensures forall h :: h in RowObject(headers, row) <==> h in headers
  {
    if |headers| > 0 {
      var n := |headers| - 1;
      RowObjectKeys(headers[..n], row);
      assert headers == headers[..n] + [headers[n]];
    }
  }

  /** A column name is bound to the cell under its last occurrence in the
      header: later columns of the same name overwrite earlier ones. */
  lemma {:induction false} RowObjectLast(headers: seq<string>, row: seq<string>, i: nat)
    requires i < |headers| && IsLastOccurrence(headers, i)
    ensures headers[i] in RowObject(headers, row)
    ensures RowObject(headers, row)[headers[i]] == Cell(row, i)
  {
    var n := |headers| - 1;
    if i < n {
      var init := headers[..n];
      assert init[i] == headers[i] && headers[n] != headers[i];
      assert IsLastOccurrence(init, i) by {
        forall j | i < j < n ensures init[j] != init[i] {
          assert init[j] == headers[j];
        }
      }
      RowObjectLast(init, row, i);
    }
  }

  /** The header loop: one key at a time, later columns overwriting earlier
      ones of the same name. */
  method BuildRowObject(headers: seq<string>, row: seq<string>) returns (obj: Row)
    ensures obj == RowObject(headers, row)
  {
    obj := map[];
    for index := 0 to |headers|
      invariant obj == RowObject(headers[..index], row)
    {
      assert headers[..index + 1][..index] == headers[..index];
      obj := obj[headers[index] := Cell(row, index)];
    }
    assert headers[..|headers|] == headers;
  }

  /** The rows `fetchSheetData` resolves to: none when the request failed or
      the grid is empty, otherwise one object per row after the header. */
  function SheetRows(resp: Response): (rows: seq<Row>)
    ensures resp.Unreachable? ==> rows == []
    ensures resp.Delivered? ==> |rows| == if |resp.values| == 0 then 0 else |resp.values| - 1
    ensures resp.Delivered? ==>
      forall k :: 0 <= k < |rows| ==> rows[k] == RowObject(resp.values[0], resp.values[k + 1])
  {
    match resp
    case Unreachable => []
    case Delivered(grid) =>
      if |grid| == 0 then []
      else seq(|grid| - 1, k requires 0 <= k < |grid| - 1 => RowObject(grid[0], grid[k + 1]))
  }

  /** `fetchSheetData` once the response is in: the header row becomes the
      keys, each later row one object, in order. */
  method FetchSheetData(resp: Response) returns (rows: seq<Row>)
    ensures rows == SheetRows(resp)
  {
    rows := [];
    if resp.Unreachable? || |resp.values| == 0 {
      return;
    }
    var grid := resp.values;
    var headers := grid[0];
    ghost var expected := SheetRows(resp);
    for k := 1 to |grid|
      invariant rows == expected[..k - 1]
    {
      var obj := BuildRowObject(headers, grid[k]);
      assert expected[..k] == expected[..k - 1] + [obj];
      rows := rows + [obj];
    }
    assert expected[..|grid| - 1] == expected;
  }

  /** Every row object has exactly the column names as keys. */
  lemma RowKeys(resp: Response, k: nat, column: string)
    requires k < |SheetRows(resp)|
    ensures column in SheetRows(resp)[k] <==> column in resp.values[0]
  {
    RowObjectKeys(resp.values[0], resp.values[k + 1]);
  }

  // ---------------------------------------------------------------------
  // Row to certificate
  // ---------------------------------------------------------------------

  /** `row[column]` where an absent column reads as "". */
  function Field(row: Row, column: string): string {
    if column in row then row[column] else ""
  }

  /** The `Skills` cell: no skills for an empty cell, otherwise every
      comma-separated piece, trimmed, in order, empty pieces included. */
  function ParseSkills(cell: string): (skills: seq<string>)
    ensures skills == [] <==> cell == ""
    ensures cell != "" ==> |skills| == |Split(cell, ',')|
    ensures forall i :: 0 <= i < |skills| ==> skills[i] == Trim(Split(cell, ',')[i])
  {
    if cell == "" then []
    else
      var pieces := Split(cell, ',');
      seq(|pieces|, i requires 0 <= i < |pieces| => Trim(pieces[i]))
  }

  /** Skills written out with commas, each without outer whitespace or
      commas, are read back as they were written. */
  lemma SkillsRoundTrip(skills: seq<string>)
    requires skills != [""]
    requires forall i :: 0 <= i < |skills| ==> ',' !in skills[i] && Trim(skills[i]) == skills[i]
    ensures ParseSkills(Join(skills, ",")) == skills
  {
    if skills != [] {
      var cell := Join(skills, ",");
      SplitJoin(skills, ',');
      ParseTrimmedPieces(cell, skills, skills);
    }
  }

  // The separator ", " as a comma followed by a space, stated once so that
  // the proofs below need not unfold the literal.
  lemma CommaSpace()
    ensures "," + " " == ", "
  {
    assert ("," + " ")[0] == ',' && ("," + " ")[1] == ' ';
  }

  lemma TrimAfterSpace(s: string)
    requires IsTrimmed(s)
    ensures Trim(" " + s) == s
  {
    assert AllWhitespace(" ");
    assert AllWhitespace("");
    TrimPadded(" ", s, "");
    assert " " + s + "" == " " + s;
  }

  /** The pieces of "a, b, c" split on commas: the first item, then each
      later item after its space; none holds a comma and each trims back to
      its item. */
  lemma SpacedPieces(skills: seq<string>)
    requires |skills| >= 1
    requires ListableSkills(skills)
    ensures var pieces := [skills[0]] + Prefixed(skills[1..], " ");
      && Join(pieces, ",") == Join(skills, ", ")
      && forall i :: 0 <= i < |pieces| ==> ',' !in pieces[i] && Trim(pieces[i]) == skills[i]
  {
    var pieces := [skills[0]] + Prefixed(skills[1..], " ");
    JoinPrefixedTail(skills, ",", " ");
    CommaSpace();
    forall i | 0 <= i < |pieces| ensures ',' !in pieces[i] && Trim(pieces[i]) == skills[i] {
      if i == 0 {
        TrimOfTrimmed(skills[0]);
      } else {
        assert pieces[i] == " " + skills[i];
        TrimAfterSpace(skills[i]);
      }
    }
  }

  lemma JoinStartsWithFirst(parts: seq<string>, sep: string)
    requires |parts| >= 1
    ensures |Join(parts, sep)| >= |parts[0]|
  {
  }

  /** A non-empty cell whose comma pieces trim to `skills` parses to them. */
  lemma ParseTrimmedPieces(cell: string, pieces: seq<string>, skills: seq<string>)
    requires cell != "" && Split(cell, ',') == pieces && |pieces| == |skills|
    requires forall i :: 0 <= i < |pieces| ==> Trim(pieces[i]) == skills[i]
    ensures ParseSkills(cell) == skills
  {
  }

  /** Items fit to be written in a list: no outer whitespace, no comma. */
  predicate ListableSkills(skills: seq<string>) {
    forall i :: 0 <= i < |skills| ==> IsTrimmed(skills[i]) && ',' !in skills[i]
  }

  /** Skills written the usual way, separated by a comma and a space, are
      read back as they were written. */
  lemma SpacedSkillsRoundTrip(skills: seq<string>)
    requires skills != [""] && ListableSkills(skills)
    ensures ParseSkills(Join(skills, ", ")) == skills
  {
    if skills != [] {
      var cell := Join(skills, ", ");
      var pieces := [skills[0]] + Prefixed(skills[1..], " ");
      SpacedPieces(skills);
      SplitJoin(pieces, ',');
      JoinStartsWithFirst(skills, ", ");
      ParseTrimmedPieces(cell, pieces, skills);
    }
  }

  /** The `Is Verified` cell: true exactly for "true" in any mix of upper and
      lower case. */
  function IsVerifiedCell(cell: string): (verified: bool)
    ensures verified <==>
      && |cell| == 4
      && (cell[0] == 't' || cell[0] == 'T')
      && (cell[1] == 'r' || cell[1] == 'R')
      && (cell[2] == 'u' || cell[2] == 'U')
      && (cell[3] == 'e' || cell[3] == 'E')
  {
    var lower := Lower(cell);
    assert |lower| == 4 ==> (lower == "true" <==>
      lower[0] == 't' && lower[1] == 'r' && lower[2] == 'u' && lower[3] == 'e');
    lower == "true"
  }

  /** The certificate for one row, with `importedAt` as the ISO-8601 stamp
      of both `createdAt` and `updatedAt`. */
  function MapRow(row: Row, importedAt: string): Certificate {
    Certificate(
      id := Field(row, "Certificate ID"),
      recipientName := Field(row, "Recipient Name"),
      recipientEmail := Field(row, "Recipient Email"),
      courseName := Field(row, "Course Name"),
      issuerName := Field(row, "Issuer Name"),
      issueDate := Field(row, "Issue Date"),
      completionDate := Field(row, "Completion Date"),
      duration := Field(row, "Duration"),
      grade := Field(row, "Grade"),
      skills := ParseSkills(Field(row, "Skills")),
      instructorName := if "Instructor Name" in row then Some(row["Instructor Name"]) else None,
      verificationCode := Field(row, "Verification Code"),
      isVerified := IsVerifiedCell(Field(row, "Is Verified")),
      createdAt := importedAt,
      updatedAt := importedAt)
  }

  /** Each certificate field comes from the cell under its column in the
      same data row (a missing trailing cell reads as ""): text columns
      verbatim, the skills split and trimmed, the verification flag parsed
      case-insensitively. `i` is the last column of its name. */
  lemma ColumnToField(grid: Grid, k: nat, i: nat, importedAt: string)
    requires k + 1 < |grid| && i < |grid[0]| && IsLastOccurrence(grid[0], i)
    ensures k < |SheetRows(Delivered(grid))|
    ensures var c := MapRow(SheetRows(Delivered(grid))[k], importedAt);
            var column, cell := grid[0][i], Cell(grid[k + 1], i);
      && (column == "Certificate ID" ==> c.id == cell)
      && (column == "Recipient Name" ==> c.recipientName == cell)
      && (column == "Recipient Email" ==> c.recipientEmail == cell)
      && (column == "Course Name" ==> c.courseName == cell)
      && (column == "Issuer Name" ==> c.issuerName == cell)
      && (column == "Issue Date" ==> c.issueDate == cell)
      && (column == "Completion Date" ==> c.completionDate == cell)
      && (column == "Duration" ==> c.duration == cell)
      && (column == "Grade" ==> c.grade == cell)
      && (column == "Skills" ==> c.skills == ParseSkills(cell))
      && (column == "Instructor Name" ==> c.instructorName == Some(cell))
      && (column == "Verification Code" ==> c.verificationCode == cell)
      && (column == "Is Verified" ==> c.isVerified == IsVerifiedCell(cell))
  {
    var row := SheetRows(Delivered(grid))[k];
    assert row == RowObject(grid[0], grid[k + 1]);
    RowObjectLast(grid[0], grid[k + 1], i);
  }

  /** A column the header lacks leaves its field `undefined` in every data
      row: "" for text, no skills, not verified and no instructor. Both
      stamps are the import time whatever the header holds. */
  lemma AbsentColumn(grid: Grid, k: nat, importedAt: string, column: string)
    requires k + 1 < |grid| && column !in grid[0]
    ensures k < |SheetRows(Delivered(grid))|
    ensures var c := MapRow(SheetRows(Delivered(grid))[k], importedAt);
      && (column == "Certificate ID" ==> c.id == "")
      && (column == "Recipient Name" ==> c.recipientName == "")
      && (column == "Recipient Email" ==> c.recipientEmail == "")
      && (column == "Course Name" ==> c.courseName == "")
      && (column == "Issuer Name" ==> c.issuerName == "")
      && (column == "Issue Date" ==> c.issueDate == "")
      && (column == "Completion Date" ==> c.completionDate == "")
      && (column == "Duration" ==> c.duration == "")
      && (column == "Grade" ==> c.grade == "")
      && (column == "Skills" ==> c.skills == [])
      && (column == "Instructor Name" ==> c.instructorName == None)
      && (column == "Verification Code" ==> c.verificationCode == "")
      && (column == "Is Verified" ==> !c.isVerified)
      && c.createdAt == importedAt && c.updatedAt == importedAt
  {
    assert SheetRows(Delivered(grid))[k] == RowObject(grid[0], grid[k + 1]);
    RowObjectKeys(grid[0], grid[k + 1]);
  }

  // ---------------------------------------------------------------------
  // Listing and lookup
  // ---------------------------------------------------------------------

  /** `getAllCertificates`: one certificate per data row, in row order. */
  function GetAllCertificates(resp: Response, importedAt: string): (certs: seq<Certificate>)
    ensures |certs| == |SheetRows(resp)|
    ensures forall k :: 0 <= k < |certs| ==> certs[k] == MapRow(SheetRows(resp)[k], importedAt)
  {
    var rows := SheetRows(resp);
    seq(|rows|, k requires 0 <= k < |rows| => MapRow(rows[k], importedAt))
  }

  /** `row["Certificate ID"] === id`: an absent column never matches. */
  predicate HasId(row: Row, id: string) {
    "Certificate ID" in row && row["Certificate ID"] == id
  }

  /** The test of the lookup for one id. */
  function IdIs(id: string): Row -> bool {
    row => HasId(row, id)
  }

  /** The lookup over the fetched rows: the certificate of the first row
      whose id is exactly `id`, or `None` when no row has it. */
  function FindCertificate(rows: seq<Row>, id: string, importedAt: string): (r: Option<Certificate>)
    ensures r.None? <==> forall k :: 0 <= k < |rows| ==> !HasId(rows[k], id)
    ensures r.Some? ==> exists k ::
      && 0 <= k < |rows|
      && HasId(rows[k], id)
      && (forall j :: 0 <= j < k ==> !HasId(rows[j], id))
      && r.value == MapRow(rows[k], importedAt)
    ensures r.Some? ==> r.value.id == id
  {
    var found := FindIndex(rows, IdIs(id));
    if found.None? then None
    else
      var k := found.value;
      assert HasId(rows[k], id) && forall j :: 0 <= j < k ==> !HasId(rows[j], id) by {
        assert IdIs(id)(rows[k]);
      }
      Some(MapRow(rows[k], importedAt))
  }

  /** `getCertificateById`: fetch the rows, then look the id up. */
  function GetCertificateById(resp: Response, id: string, importedAt: string): (r: Option<Certificate>)
    ensures resp.Unreachable? ==> r.None?
    ensures r.Some? ==> r.value.id == id
  {
    FindCertificate(SheetRows(resp), id, importedAt)
  }

  /** Looking a certificate up by id gives the first certificate of the full
      listing that carries that id, whenever the id is not empty, the sheet
      has no data row, or the sheet has an id column. */
  lemma ByIdMatchesListing(resp: Response, id: string, importedAt: string)
    requires id != "" || resp.Unreachable? || |resp.values| <= 1 || "Certificate ID" in resp.values[0]
    ensures GetCertificateById(resp, id, importedAt)
         == Find(GetAllCertificates(resp, importedAt), (c: Certificate) => c.id == id)
  {
    var rows := SheetRows(resp);
    var certs := GetAllCertificates(resp, importedAt);
    var p := IdIs(id);
    var q := (c: Certificate) => c.id == id;
    forall k | 0 <= k < |rows| ensures p(rows[k]) <==> q(certs[k]) {
      RowKeys(resp, k, "Certificate ID");
    }
    FindIndexAgrees(rows, p, certs, q);
  }

  // ---------------------------------------------------------------------
  // Validation
  // ---------------------------------------------------------------------

  const RequiredColumns: seq<string> := ["Certificate ID", "Recipient Name", "Course Name", "Issuer Name"]

  const NoDataError: string := "No data found in the sheet. Please add certificate data."

  /** The result of `validateSheetSetup`. */
  datatype SheetStatus = SheetStatus(isValid: bool, error: Option<string>, sampleData: Option<seq<Row>>)

  /** The required columns absent from a row object, in the order they are
      required. */
  function MissingColumns(row: Row): (missing: seq<string>)
    ensures forall i :: 0 <= i < |missing| ==> missing[i] in RequiredColumns && missing[i] !in row
    ensures forall i :: 0 <= i < |RequiredColumns| && RequiredColumns[i] !in row ==> RequiredColumns[i] in missing
    ensures IsSubsequence(missing, RequiredColumns)
  {
    Filter(RequiredColumns, (c: string) => c !in row)
  }

  function MissingColumnsError(missing: seq<string>): string {
    "Missing required columns: " + Join(missing, ", ")
  }

  /** A header column of this name makes the first row object's own
      `hasOwnProperty` a string, which shadows the method the column check
      calls. */
  const ShadowingColumn: string := "hasOwnProperty"

  /** The message of the `TypeError` that calling the shadowed
      `firstRow.hasOwnProperty` throws, as V8 words it; the catch branch of
      `validateSheetSetup` reports it as the error. */
  const ShadowedLookupError: string := "firstRow.hasOwnProperty is not a function"

  /** `validateSheetSetup`: invalid with the "no data" message when there is
      no data row (`ValidExactlyWithColumns` says when a sheet with data
      rows is valid). Only an invalid sheet carries an error, and only a
      valid one a sample. */
  function ValidateSheetSetup(resp: Response): (status: SheetStatus)
    ensures resp.Unreachable? || |resp.values| <= 1 ==>
      status == SheetStatus(false, Some(NoDataError), None)
    ensures status.isValid <==> status.error == None
    ensures status.isValid <==> status.sampleData.Some?
  {
    var rows := SheetRows(resp);
    if |rows| == 0 then
      SheetStatus(false, Some(NoDataError), None)
    else
      if ShadowingColumn in rows[0] then
        SheetStatus(false, Some(ShadowedLookupError), None)
      else
        var missing := MissingColumns(rows[0]);
        if |missing| > 0 then
          SheetStatus(false, Some(MissingColumnsError(missing)), None)
        else
          SheetStatus(true, None, Some(rows[..Min(3, |rows|)]))
  }

  /** A sheet with data rows is valid exactly when its header holds every
      required column and no column named "hasOwnProperty". */
  lemma ValidExactlyWithColumns(resp: Response)
    requires resp.Delivered? && |resp.values| >= 2
    ensures ValidateSheetSetup(resp).isValid <==>
      && ShadowingColumn !in resp.values[0]
      && forall i :: 0 <= i < |RequiredColumns| ==> RequiredColumns[i] in resp.values[0]
  {
    var row := SheetRows(resp)[0];
    RowObjectKeys(resp.values[0], resp.values[1]);
  }

  /** A sheet with data rows but missing columns is reported with an error
      naming exactly the required columns its header lacks, in the order
      they are required. */
  lemma MissingColumnsReported(resp: Response)
    requires resp.Delivered? && |resp.values| >= 2 && !ValidateSheetSetup(resp).isValid
    requires ShadowingColumn !in resp.values[0]
    ensures var missing := MissingColumns(SheetRows(resp)[0]);
      && ValidateSheetSetup(resp) == SheetStatus(false, Some(MissingColumnsError(missing)), None)
      && (forall c :: c in missing <==> c in RequiredColumns && c !in resp.values[0])
  {
    var row := SheetRows(resp)[0];
    RowObjectKeys(resp.values[0], resp.values[1]);
  }

  /** A sheet with data rows and a column named "hasOwnProperty" is
      invalid whatever its other columns: the column check throws, and the
      error is the thrown message. */
  lemma ShadowedLookupReported(resp: Response)
    requires resp.Delivered? && |resp.values| >= 2 && ShadowingColumn in resp.values[0]
    ensures ValidateSheetSetup(resp) == SheetStatus(false, Some(ShadowedLookupError), None)
  {
    RowKeys(resp, 0, ShadowingColumn);
  }

  /** A valid sheet has at least one data row and carries its first three
      rows (all of them when there are fewer) as the sample. */
  lemma ValidSheetSample(resp: Response)
    requires ValidateSheetSetup(resp).isValid
    ensures var rows := SheetRows(resp);
      && |rows| >= 1
      && ValidateSheetSetup(resp) == SheetStatus(true, None, Some(rows[..Min(3, |rows|)]))
  {
  }
}
