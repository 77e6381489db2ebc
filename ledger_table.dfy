/** The table logic of the spreadsheet ledger proxy (nmdc-orcid-creditor-proxy/Code.gs.js),
    stated on values: the sheet is the grid that `getDataRange().getValues()` returns,
    its first row holding the column names and every other row one credit.

    The functions here specify what `getCreditsByOrcidId` returns and what
    `markCreditAsClaimed` writes; the class in LedgerProxy runs the loops that compute them. */
module LedgerTable {
  import opened Wrappers

  type Row = seq<string>
  type Table = seq<Row>

  /** A row labelled by column name, as the proxy returns it in its JSON `credits` list. */
  type LabeledCredit = map<string, string>

  const ORCID_ID_COLUMN := "column.ORCID_ID"
  const CREDIT_TYPE_COLUMN := "column.CREDIT_TYPE"
  const START_DATE_COLUMN := "column.START_DATE"
  const END_DATE_COLUMN := "column.END_DATE"
  const CLAIMED_AT_COLUMN := "column.CLAIMED_AT"
  const AFFILIATION_PUT_CODE_COLUMN := "column.AFFILIATION_PUT_CODE"

  /** A data range's values: never empty (an empty sheet still has a 1x1 data range)
      and rectangular. */
  predicate IsTable(values: Table) {
    |values| > 0 && forall i :: 0 <= i < |values| ==> |values[i]| == |values[0]|
  }

  /** JavaScript's `Array.prototype.indexOf`: the first position of `name`, or -1. */
  function IndexOf(names: seq<string>, name: string): (i: int)
    ensures -1 <= i < |names|
    ensures i == -1 <==> name !in names
    ensures 0 <= i ==> names[i] == name && forall j :: 0 <= j < i ==> names[j] != name
  {
    if |names| == 0 then -1
    else if names[0] == name then 0
    else
      var k := IndexOf(names[1..], name);
      if k == -1 then -1 else k + 1
  }

  /** The last position of `name`. */
  function LastIndexOf(names: seq<string>, name: string): (i: nat)
    requires name in names
    ensures i < |names| && names[i] == name
    ensures forall j :: i < j < |names| ==> names[j] != name
  {
    if names[|names| - 1] == name then |names| - 1
    else LastIndexOf(names[..|names| - 1], name)
  }

  /** JavaScript's `row[index] === value` on a string cell. A missing column has
      index -1, and `row[-1]` is `undefined`, which is strictly equal to no string. */
  predicate CellIs(row: Row, index: int, value: string) {
    0 <= index < |row| && row[index] == value
  }

  // ---------------------------------------------------------------------------
  // getCreditsByOrcidId

  /** `values.filter((row) => row[index] === value)`. */
  function FilterByCell(rows: Table, index: int, value: string): (kept: Table)
    ensures |kept| <= |rows|
    ensures forall k :: 0 <= k < |kept| ==> kept[k] in rows && CellIs(kept[k], index, value)
  {
    if |rows| == 0 then []
    else
      var last := rows[|rows| - 1];
      FilterByCell(rows[..|rows| - 1], index, value) + (if CellIs(last, index, value) then [last] else [])
  }

  /** The positions, in increasing order, of exactly the rows whose cell `index` is `value`. */
  function MatchingPositions(rows: Table, index: int, value: string): (ps: seq<nat>)
    ensures forall k :: 0 <= k < |ps| ==> ps[k] < |rows| && CellIs(rows[ps[k]], index, value)
    ensures forall k, l :: 0 <= k < l < |ps| ==> ps[k] < ps[l]
    ensures forall j :: 0 <= j < |rows| && CellIs(rows[j], index, value) ==> j in ps
  {
    if |rows| == 0 then []
    else
      var n := |rows| - 1;
      var earlier := MatchingPositions(rows[..n], index, value);
      assert forall j :: 0 <= j < n ==> rows[..n][j] == rows[j];
      earlier + (if CellIs(rows[n], index, value) then [n] else [])
  }

  /** The filter keeps exactly the matching rows, in sheet order: its k-th row is the
      row at the k-th matching position. */
  lemma {:induction false} FilterKeepsMatchingRowsInOrder(rows: Table, index: int, value: string)
    ensures var kept, ps := FilterByCell(rows, index, value), MatchingPositions(rows, index, value);
            |kept| == |ps| && forall k :: 0 <= k < |kept| ==> kept[k] == rows[ps[k]]
  {
    if |rows| > 0 {
      var n := |rows| - 1;
      var prefix := rows[..n];
      FilterKeepsMatchingRowsInOrder(prefix, index, value);
      var kept0, ps0 := FilterByCell(prefix, index, value), MatchingPositions(prefix, index, value);
      var tail := if CellIs(rows[n], index, value) then [rows[n]] else [];
      var tailPs := if CellIs(rows[n], index, value) then [n] else [];
      assert FilterByCell(rows, index, value) == kept0 + tail;
      assert MatchingPositions(rows, index, value) == ps0 + tailPs;
      forall k | 0 <= k < |kept0| ensures kept0[k] == rows[ps0[k]] {
        assert prefix[ps0[k]] == rows[ps0[k]];
      }
    }
  }

  /** The one name that `labeledRow[name] = cell` does not add to a fresh object literal:
      `__proto__` is an accessor inherited from `Object.prototype`, and its setter ignores a
      string value, so no own property is created and `JSON.stringify` shows none. */
  const PROTO_KEY := "__proto__"

  /** `labeledRow[name] = cell` for a string cell. */
  function AssignProperty(labeledRow: LabeledCredit, name: string, cell: string): LabeledCredit {
    if name == PROTO_KEY then labeledRow else labeledRow[name := cell]
  }

  /** The object built for one row: every column name maps to that row's cell in the
      column. Assigning a repeated name again overwrites it, so the last column wins. */
  function Labeled(columnNames: seq<string>, cellValues: Row): (labeled: LabeledCredit)
    requires |cellValues| >= |columnNames|
  {
    map name | name in columnNames && name != PROTO_KEY :: cellValues[LastIndexOf(columnNames, name)]
  }

  /** The labelled row has exactly the column names other than `__proto__` as keys, and maps
      each name to the cell of its last column; with distinct column names, `columnNames[i]`
      maps to cell `i`. */
  lemma LabeledMapsColumns(columnNames: seq<string>, cellValues: Row)
    requires |cellValues| >= |columnNames|
    ensures Labeled(columnNames, cellValues).Keys == set name | name in columnNames && name != PROTO_KEY
    ensures forall i :: 0 <= i < |columnNames| && columnNames[i] != PROTO_KEY &&
                        (forall j :: i < j < |columnNames| ==> columnNames[j] != columnNames[i])
                ==> Labeled(columnNames, cellValues)[columnNames[i]] == cellValues[i]
  {
  }

  /** Labelling one more column assigns (adds or overwrites) that column's property. */
  lemma LabeledExtend(columnNames: seq<string>, cellValues: Row, i: nat)
    requires i < |columnNames| <= |cellValues|
    ensures Labeled(columnNames[..i + 1], cellValues) ==
            AssignProperty(Labeled(columnNames[..i], cellValues), columnNames[i], cellValues[i])
  {
    var longer, shorter := columnNames[..i + 1], columnNames[..i];
    assert longer == shorter + [columnNames[i]];
    forall name | name in shorter && name != columnNames[i]
      ensures LastIndexOf(longer, name) == LastIndexOf(shorter, name)
    {
      assert longer[..i] == shorter;
    }
  }

  /** What `getCreditsByOrcidId(orcidId)` returns for a sheet: every row (the header row
      included, since the scan starts at row 0) whose ORCID iD cell is `orcidId`, labelled
      by the header. */
  function CreditsView(values: Table, orcidId: string): (view: seq<LabeledCredit>)
    requires IsTable(values)
    ensures |view| <= |values|
    ensures forall k :: 0 <= k < |view| ==> view[k].Keys == set name | name in values[0] && name != PROTO_KEY
  {
    var columnNames := values[0];
    var credits := FilterByCell(values, IndexOf(columnNames, ORCID_ID_COLUMN), orcidId);
    RowsHaveHeaderWidth(values, credits);
    var view := seq(|credits|, k requires 0 <= k < |credits| => Labeled(columnNames, credits[k]));
    forall k | 0 <= k < |view|
      ensures view[k].Keys == set name | name in columnNames && name != PROTO_KEY
    {
      LabeledMapsColumns(columnNames, credits[k]);
    }
    view
  }

  lemma RowsHaveHeaderWidth(values: Table, rows: Table)
    requires IsTable(values)
    requires forall k :: 0 <= k < |rows| ==> rows[k] in values
    ensures forall k :: 0 <= k < |rows| ==> |rows[k]| == |values[0]|
  {
    forall k | 0 <= k < |rows| ensures |rows[k]| == |values[0]| {
      var i :| 0 <= i < |values| && values[i] == rows[k];
    }
  }

  /** The view holds one labelled credit per row whose ORCID iD cell equals `orcidId`,
      the k-th for the k-th such row in sheet order. The header row is among them only when
      `orcidId` is the ORCID column's own name, and a sheet without that column lists nothing. */
  lemma CreditsViewSelectsMatchingRows(values: Table, orcidId: string)
    requires IsTable(values)
    ensures var index := IndexOf(values[0], ORCID_ID_COLUMN);
            var ps := MatchingPositions(values, index, orcidId);
            var view := CreditsView(values, orcidId);
            && |view| == |ps|
            && (forall k :: 0 <= k < |view| ==> view[k] == Labeled(values[0], values[ps[k]]))
            && (0 in ps <==> index >= 0 && orcidId == ORCID_ID_COLUMN)
            && (index < 0 ==> view == [])
  {
    var index := IndexOf(values[0], ORCID_ID_COLUMN);
    FilterKeepsMatchingRowsInOrder(values, index, orcidId);
    var ps := MatchingPositions(values, index, orcidId);
    if index >= 0 && orcidId == ORCID_ID_COLUMN {
      assert CellIs(values[0], index, orcidId);
    }
  }

  // ---------------------------------------------------------------------------
  // markCreditAsClaimed

  /** The 0-based indexes of the columns the claim reads and writes (-1 for a missing one). */
  datatype Columns = Columns(orcidId: int, creditType: int, startDate: int, endDate: int,
                             claimedAt: int, putCode: int)

  function ColumnsOf(columnNames: seq<string>): Columns {
    Columns(IndexOf(columnNames, ORCID_ID_COLUMN), IndexOf(columnNames, CREDIT_TYPE_COLUMN),
            IndexOf(columnNames, START_DATE_COLUMN), IndexOf(columnNames, END_DATE_COLUMN),
            IndexOf(columnNames, CLAIMED_AT_COLUMN), IndexOf(columnNames, AFFILIATION_PUT_CODE_COLUMN))
  }

  /** The combination that identifies the credit to claim. */
  datatype CreditKey = CreditKey(orcidId: string, creditType: string, startDate: string, endDate: string)

  /** A row describing the credit `key` that has not been claimed yet (empty claimed-at cell). */
  predicate IsUnclaimedMatch(row: Row, cols: Columns, key: CreditKey) {
    && CellIs(row, cols.orcidId, key.orcidId)
    && CellIs(row, cols.creditType, key.creditType)
    && CellIs(row, cols.startDate, key.startDate)
    && CellIs(row, cols.endDate, key.endDate)
    && CellIs(row, cols.claimedAt, "")
  }

  /** The lowest position at or after `from` holding an unclaimed match. */
  function FirstUnclaimedMatch(values: Table, cols: Columns, key: CreditKey, from: nat): (found: Option<nat>)
    requires from <= |values|
    ensures found.Some? ==> from <= found.value < |values| && IsUnclaimedMatch(values[found.value], cols, key)
    ensures forall j :: from <= j < (if found.Some? then found.value else |values|) ==> !IsUnclaimedMatch(values[j], cols, key)
    decreases |values| - from
  {
    if from == |values| then None
    else if IsUnclaimedMatch(values[from], cols, key) then Some(from)
    else FirstUnclaimedMatch(values, cols, key, from + 1)
  }

  /** The row `markCreditAsClaimed` selects: the first unclaimed match in row order.
      The header row is never selected, since its claimed-at cell holds the column's name. */
  function FindCreditRow(values: Table, key: CreditKey): (found: Option<nat>)
    requires IsTable(values)
    ensures found.Some? ==> 0 < found.value < |values| && IsUnclaimedMatch(values[found.value], ColumnsOf(values[0]), key)
    ensures forall j :: 0 <= j < (if found.Some? then found.value else |values|) ==> !IsUnclaimedMatch(values[j], ColumnsOf(values[0]), key)
  {
    FirstUnclaimedMatch(values, ColumnsOf(values[0]), key, 0)
  }

  /** `dataRange.getCell(row, column)` throws unless both 1-based numbers lie inside the range. */
  predicate CellInRange(values: Table, rowNumber: int, columnNumber: int)
    requires IsTable(values)
  {
    1 <= rowNumber <= |values| && 1 <= columnNumber <= |values[0]|
  }

  /** A matching row was found but the sheet has no put-code column: `getCell(row, 0)`
      throws before either cell is written. */
  predicate ClaimFails(values: Table, key: CreditKey)
    requires IsTable(values)
  {
    var found := FindCreditRow(values, key);
    var cols := ColumnsOf(values[0]);
    found.Some? &&
    !(CellInRange(values, found.value + 1, cols.claimedAt + 1) && CellInRange(values, found.value + 1, cols.putCode + 1))
  }

  /** A selected row has its claimed-at cell inside the row, so the only `getCell` that can
      throw is the put-code one, and it throws exactly when that column is missing. */
  lemma ClaimFailsExactlyWithoutPutCodeColumn(values: Table, key: CreditKey)
    requires IsTable(values)
    ensures ClaimFails(values, key) <==>
            FindCreditRow(values, key).Some? && AFFILIATION_PUT_CODE_COLUMN !in values[0]
  {
    var found := FindCreditRow(values, key);
    if found.Some? {
      var cols := ColumnsOf(values[0]);
      assert CellIs(values[found.value], cols.claimedAt, "");
      assert CellInRange(values, found.value + 1, cols.claimedAt + 1);
    }
  }

  /** The sheet after `markCreditAsClaimed`: the selected row's claimed-at cell holds the
      timestamp and its put-code cell the put-code; when no row matches, or the write throws,
      the sheet is as it was. */
  function MarkedSheet(values: Table, key: CreditKey, claimedAt: string, putCode: string): (marked: Table)
    requires IsTable(values)
    ensures IsTable(marked) && |marked| == |values| && marked[0] == values[0]
    ensures FindCreditRow(values, key).None? || ClaimFails(values, key) ==> marked == values
    ensures FindCreditRow(values, key).Some? && !ClaimFails(values, key) ==>
              var i, cols := FindCreditRow(values, key).value, ColumnsOf(values[0]);
              && 0 <= cols.claimedAt < |marked[i]| && marked[i][cols.claimedAt] == claimedAt
              && 0 <= cols.putCode < |marked[i]| && marked[i][cols.putCode] == putCode
              && forall r, c :: 0 <= r < |values| && 0 <= c < |values[r]| &&
                                !(r == i && (c == cols.claimedAt || c == cols.putCode))
                                ==> marked[r][c] == values[r][c]
  {
    match FindCreditRow(values, key)
    case None => values
    case Some(i) =>
      if ClaimFails(values, key) then values
      else
        var cols := ColumnsOf(values[0]);
        var claimedAtIndex, putCodeIndex := cols.claimedAt, cols.putCode;
        values[i := values[i][claimedAtIndex := claimedAt][putCodeIndex := putCode]]
  }

  /** Rows with no unclaimed match can be skipped without changing the search's answer. */
  lemma {:induction false} SkipUnmatchedRows(values: Table, cols: Columns, key: CreditKey, from: nat, upTo: nat)
    requires from <= upTo <= |values|
    requires forall j :: from <= j < upTo ==> !IsUnclaimedMatch(values[j], cols, key)
    ensures FirstUnclaimedMatch(values, cols, key, from) == FirstUnclaimedMatch(values, cols, key, upTo)
    decreases upTo - from
  {
    if from < upTo {
      SkipUnmatchedRows(values, cols, key, from + 1, upTo);
    }
  }

  /** Two tables whose rows match alike from some row on give the same search result from there. */
  lemma {:induction false} SearchAgrees(a: Table, b: Table, cols: Columns, key: CreditKey, from: nat)
    requires from <= |a| == |b|
    requires forall j :: from <= j < |a| ==> (IsUnclaimedMatch(a[j], cols, key) <==> IsUnclaimedMatch(b[j], cols, key))
    ensures FirstUnclaimedMatch(a, cols, key, from) == FirstUnclaimedMatch(b, cols, key, from)
    decreases |a| - from
  {
    if from < |a| {
      SearchAgrees(a, b, cols, key, from + 1);
    }
  }

  /** Claiming writes a non-empty timestamp, so the claimed row stops matching: repeating
      the same claim selects the next duplicate row after it, or none, and never the same row. */
  lemma RepeatedClaimSelectsNextDuplicate(values: Table, key: CreditKey, claimedAt: string, putCode: string)
    requires IsTable(values)
    requires claimedAt != ""
    requires FindCreditRow(values, key).Some? && !ClaimFails(values, key)
    ensures var i := FindCreditRow(values, key).value;
            var after := MarkedSheet(values, key, claimedAt, putCode);
            && FindCreditRow(after, key) == FirstUnclaimedMatch(values, ColumnsOf(values[0]), key, i + 1)
            && FindCreditRow(after, key) != Some(i)
  {
    var i := FindCreditRow(values, key).value;
    var after := MarkedSheet(values, key, claimedAt, putCode);
    var cols := ColumnsOf(values[0]);
    assert ColumnsOf(after[0]) == cols;
    assert !IsUnclaimedMatch(after[i], cols, key);
    forall j | 0 <= j < |values| && j != i ensures after[j] == values[j] {
      assert |after[j]| == |values[j]|;
    }
    SkipUnmatchedRows(after, cols, key, 0, i + 1);
    SearchAgrees(after, values, cols, key, i + 1);
  }

  /** The view returned after a claim lists the claimed row. When the claimed-at and
      put-code column names each appear once in the header, that row's labelled credit
      shows the timestamp and the put-code just written. */
  lemma ClaimedRowIsListed(values: Table, key: CreditKey, claimedAt: string, putCode: string)
    requires IsTable(values)
    requires FindCreditRow(values, key).Some? && !ClaimFails(values, key)
    ensures var i := FindCreditRow(values, key).value;
            var after := MarkedSheet(values, key, claimedAt, putCode);
            var view := CreditsView(after, key.orcidId);
            var header, cols := values[0], ColumnsOf(values[0]);
            && (exists k :: 0 <= k < |view| && view[k] == Labeled(after[0], after[i]))
            && ((forall j :: cols.claimedAt < j < |header| ==> header[j] != CLAIMED_AT_COLUMN) ==>
                  Labeled(after[0], after[i])[CLAIMED_AT_COLUMN] == claimedAt)
            && ((forall j :: cols.putCode < j < |header| ==> header[j] != AFFILIATION_PUT_CODE_COLUMN) ==>
                  Labeled(after[0], after[i])[AFFILIATION_PUT_CODE_COLUMN] == putCode)
  {
    var i := FindCreditRow(values, key).value;
    var after := MarkedSheet(values, key, claimedAt, putCode);
    var header, cols := values[0], ColumnsOf(values[0]);
    assert after[i][cols.orcidId] == values[i][cols.orcidId];
    assert CellIs(after[i], cols.orcidId, key.orcidId);
    CreditsViewSelectsMatchingRows(after, key.orcidId);
    var ps := MatchingPositions(after, cols.orcidId, key.orcidId);
    assert i in ps;
    var k :| 0 <= k < |ps| && ps[k] == i;
    assert CreditsView(after, key.orcidId)[k] == Labeled(after[0], after[i]);
    ClaimedCellsAreLabeled(values, key, claimedAt, putCode);
  }

  /** The labelled credit of the claimed row shows the written cells under their column
      names, unless a later header cell reuses the name. */
  lemma ClaimedCellsAreLabeled(values: Table, key: CreditKey, claimedAt: string, putCode: string)
    requires IsTable(values)
    requires FindCreditRow(values, key).Some? && !ClaimFails(values, key)
    ensures var i := FindCreditRow(values, key).value;
            var after := MarkedSheet(values, key, claimedAt, putCode);
            var header, cols := values[0], ColumnsOf(values[0]);
            && ((forall j :: cols.claimedAt < j < |header| ==> header[j] != CLAIMED_AT_COLUMN) ==>
                  Labeled(after[0], after[i])[CLAIMED_AT_COLUMN] == claimedAt)
            && ((forall j :: cols.putCode < j < |header| ==> header[j] != AFFILIATION_PUT_CODE_COLUMN) ==>
                  Labeled(after[0], after[i])[AFFILIATION_PUT_CODE_COLUMN] == putCode)
  {
  }
}
