/** load_supplemental of the stage-2 build: rows of the hand-curated CSV of
    large proposed projects, kept when their parsed unit total reaches the
    threshold, with a default status, name and update date. */
module Supplemental {
  import opened Base
  import opened Text
  import opened Fields

  const LARGE_UNITS_THRESHOLD: int := 100

  /** A row as csv.DictReader yields it, read through the columns the
      loader asks for. A cell is None when the header has no such column or
      the row is too short to fill it; row.get treats both alike. */
  datatype CsvRow = CsvRow(
    projectId: Option<string>,
    projectName: Option<string>,
    address: Option<string>,
    neighborhood: Option<string>,
    status: Option<string>,
    unitsTotal: Option<string>,
    sourceUrl: Option<string>,
    lastUpdated: Option<string>,
    notes: Option<string>)

  /** One supplemental project as the merge receives it. */
  datatype SupplementalRow = SupplementalRow(
    projectId: string,
    projectName: string,
    address: string,
    neighborhood: string,
    status: string,
    unitsTotal: int,
    sourceUrl: string,
    lastUpdated: string,
    notes: string)

  /** row.get(name) or "". */
  function CellText(cell: Option<string>): string
  {
    match cell
    case Some(s) => s
    case None => ""
  }

  /** parse_int(row.get('units_total', 0), 0). Without the column the value
      is 0; for a short row it is None, whose str() "None" is no number, so
      the default 0 again. */
  function RowUnits(row: CsvRow): int
  {
    match row.unitsTotal
    case Some(s) => ParseIntV2(Str(s), 0)
    case None => ParseIntV2(Int(0), 0)
  }

  /** (row.get('status') or 'Proposed').strip() or 'Proposed'. */
  function RowStatus(row: CsvRow): string
  {
    var given := CellText(row.status);
    var status := Strip(if given != "" then given else "Proposed");
    if status != "" then status else "Proposed"
  }

  /** The record appended for a row that passes the threshold. */
  function Record(row: CsvRow, today: string): SupplementalRow
  {
    var id, address, name := CellText(row.projectId), CellText(row.address), CellText(row.projectName);
    var strippedName := Strip(name);
    var updated := CellText(row.lastUpdated);
    SupplementalRow(
      Strip(if id != "" then id else if address != "" then address else name),
      if strippedName != "" then strippedName else "Unnamed proposed project",
      Strip(address),
      Strip(CellText(row.neighborhood)),
      RowStatus(row),
      RowUnits(row),
      Strip(CellText(row.sourceUrl)),
      if updated != "" then updated else today,
      Strip(CellText(row.notes)))
  }

  /** The row passes the threshold. */
  predicate Large(row: CsvRow)
  {
    RowUnits(row) >= LARGE_UNITS_THRESHOLD
  }

  /** The records of the rows that keep accepts, in file order. */
  function KeptRecords(rows: seq<CsvRow>, keep: CsvRow -> bool, record: CsvRow -> SupplementalRow): (kept: seq<SupplementalRow>)
    ensures |kept| <= |rows|
  {
    if rows == [] then []
    else
      var row := rows[|rows| - 1];
      KeptRecords(rows[..|rows| - 1], keep, record) + (if keep(row) then [record(row)] else [])
  }

  /** The rows kept from the file, in file order. */
  function Loaded(rows: seq<CsvRow>, today: string): (kept: seq<SupplementalRow>)
    ensures |kept| <= |rows|
  {
    if rows == [] then []
    else
      var row := rows[|rows| - 1];
      Loaded(rows[..|rows| - 1], today) + (if Large(row) then [Record(row, today)] else [])
  }

  /** Loaded is the generic filter with the record of the day. */
  lemma {:induction false} LoadedIsKept(rows: seq<CsvRow>, today: string, record: CsvRow -> SupplementalRow)
    requires forall row :: record(row) == Record(row, today)
    ensures Loaded(rows, today) == KeptRecords(rows, Large, record)
  {
    if rows != [] {
      LoadedIsKept(rows[..|rows| - 1], today, record);
    }
  }

  /** load_supplemental; a missing file gives no rows. */
  method LoadSupplemental(file: Option<seq<CsvRow>>, today: string) returns (rows: seq<SupplementalRow>)
    ensures file.None? ==> rows == []
    ensures file.Some? ==> rows == Loaded(file.value, today)
  {
    rows := [];
    if file.None? {
      return;
    }
    var reader := file.value;
    var i := 0;
    while i < |reader|
      invariant 0 <= i <= |reader|
      invariant rows == Loaded(reader[..i], today)
    {
      assert reader[..i + 1][..i] == reader[..i];
      var row := reader[i];
      var units := RowUnits(row);
      if units >= LARGE_UNITS_THRESHOLD {
        rows := rows + [Record(row, today)];
      }
      i := i + 1;
    }
    assert reader[..|reader|] == reader;
  }

  /** The kept rows are exactly the records of the rows whose units reach
      the threshold: none below it ever reaches the merge. */
  lemma LoadedExact(rows: seq<CsvRow>, today: string)
    ensures forall r :: r in Loaded(rows, today) <==>
      exists i :: 0 <= i < |rows| && Large(rows[i]) && r == Record(rows[i], today)
    ensures forall r :: r in Loaded(rows, today) ==> r.unitsTotal >= LARGE_UNITS_THRESHOLD
  {
    var record := row => Record(row, today);
    LoadedIsKept(rows, today, record);
    KeptExact(rows, Large, record);
    forall r | r in Loaded(rows, today) ensures r.unitsTotal >= LARGE_UNITS_THRESHOLD {
      var i :| 0 <= i < |rows| && Large(rows[i]) && r == record(rows[i]);
    }
  }

  lemma {:induction false} KeptExact(rows: seq<CsvRow>, keep: CsvRow -> bool, record: CsvRow -> SupplementalRow)
    ensures forall r :: r in KeptRecords(rows, keep, record) <==>
      exists i :: 0 <= i < |rows| && keep(rows[i]) && r == record(rows[i])
  {
    if rows != [] {
      var init := rows[..|rows| - 1];
      KeptExact(init, keep, record);
      forall r ensures r in KeptRecords(rows, keep, record) <==>
        exists i :: 0 <= i < |rows| && keep(rows[i]) && r == record(rows[i])
      {
        if exists i :: 0 <= i < |rows| && keep(rows[i]) && r == record(rows[i]) {
          var i :| 0 <= i < |rows| && keep(rows[i]) && r == record(rows[i]);
          if i < |init| {
            assert init[i] == rows[i];
          }
        }
        if r in KeptRecords(init, keep, record) {
          var i :| 0 <= i < |init| && keep(init[i]) && r == record(init[i]);
          assert rows[i] == init[i];
        }
      }
    }
  }

  /** A row below the threshold changes nothing. */
  lemma SmallRowDropped(rows: seq<CsvRow>, row: CsvRow, today: string)
    requires !Large(row)
    ensures Loaded(rows + [row], today) == Loaded(rows, today)
  {
    assert (rows + [row])[..|rows|] == rows;
  }

  /** A kept row's status is never blank: a missing or blank status becomes
      "Proposed", any other is trimmed. */
  lemma StatusDefault(row: CsvRow)
    ensures RowStatus(row) != ""
    ensures AllSpace(CellText(row.status)) ==> RowStatus(row) == "Proposed"
    ensures !AllSpace(CellText(row.status)) ==> RowStatus(row) == Strip(CellText(row.status))
  {
    var given := CellText(row.status);
    ProposedStripped();
    StripEmpty(given);
  }

  lemma ProposedStripped()
    ensures Strip("Proposed") == "Proposed"
  {
    assert StripLeft("Proposed") == "Proposed";
  }

  /** The unit cell is read with the thousands separators removed. */
  lemma UnitsIgnoreCommas(row: CsvRow, a: string, b: string)
    requires row.unitsTotal == Some(a + "," + b)
    ensures RowUnits(row) == ParseIntV2(Str(a + b), 0)
  {
    assert a + "," + b == (a + ",") + b;
    RemoveCommasConcat(a + ",", b);
    RemoveCommasConcat(a, ",");
    RemoveCommasConcat(a, b);
    assert RemoveCommas(",") == [];
    assert RemoveCommas(a + "," + b) == RemoveCommas(a + b);
  }

  /** A unit cell holding str(n), with or without surrounding white space,
      reads as n. */
  lemma UnitsOfDecimal(row: CsvRow, n: int, before: string, after: string)
    requires AllSpace(before) && AllSpace(after)
    requires row.unitsTotal == Some(before + IntToDecimal(n) + after)
    ensures RowUnits(row) == n
  {
    var s := before + IntToDecimal(n) + after;
    ParseIntRoundTrip(n, before, after, 0);
    ParseIntAgree(s, 0);
  }

  /** The project_id fallback tests the raw cells before trimming, so a
      project_id cell of white space alone gives an empty id rather than
      the address. */
  lemma BlankIdNotReplaced(row: CsvRow, today: string)
    requires CellText(row.projectId) != "" && AllSpace(CellText(row.projectId))
    ensures Record(row, today).projectId == ""
  {
    StripEmpty(CellText(row.projectId));
  }

  /** A row listing 50 units never reaches the merge. */
  lemma FiftyUnitsDropped(rows: seq<CsvRow>, small: CsvRow, today: string)
    requires small.unitsTotal == Some("50")
    ensures Loaded(rows + [small], today) == Loaded(rows, today)
  {
    assert IntToDecimal(50) == "50";
    assert "" + IntToDecimal(50) + "" == "50";
    UnitsOfDecimal(small, 50, "", "");
    SmallRowDropped(rows, small, today);
  }

  /** A row listing "1,200" units passes the threshold as 1200. */
  lemma ThousandsKept(rows: seq<CsvRow>, large: CsvRow, today: string)
    requires large.unitsTotal == Some("1,200")
    ensures RowUnits(large) == 1200
    ensures Loaded(rows + [large], today) == Loaded(rows, today) + [Record(large, today)]
  {
    assert "1" + "," + "200" == "1,200";
    UnitsIgnoreCommas(large, "1", "200");
    DecimalText1200();
    DecimalParses(1200);
    assert (rows + [large])[..|rows|] == rows;
  }

  /** The stage-2 parse reads str(n) as n. */
  lemma DecimalParses(n: int)
    ensures ParseIntV2(Str(IntToDecimal(n)), 0) == n
  {
    var t := IntToDecimal(n);
    ParseIntRoundTrip(n, "", "", 0);
    assert "" + t + "" == t;
    ParseIntAgree(t, 0);
  }

  lemma DecimalText1200()
    ensures IntToDecimal(1200) == "1" + "200"
  {
    assert NatToDecimal(1) == "1";
    assert NatToDecimal(12) == "12";
    assert NatToDecimal(120) == "120";
    assert NatToDecimal(1200) == "1200";
  }
}
