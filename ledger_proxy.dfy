/** The sheet-facing operations of the spreadsheet ledger proxy
    (nmdc-orcid-creditor-proxy/Code.gs.js). The Google Sheets document is an object
    whose data-range values the operations read and whose cells `markCreditAsClaimed`
    overwrites in place. */
module LedgerProxy {
  import opened Wrappers
  import opened LedgerTable

  /** What `markCreditAsClaimed` yields: the credits view, or the exception that
      `getCell` throws for a column number outside the data range. */
  datatype Outcome = Credits(credits: seq<LabeledCredit>) | CellOutOfRange

  /** The body of the `credits.map` callback: label one row's cells by column name. */
  method LabelRow(columnNames: seq<string>, cellValues: Row) returns (labeledRow: LabeledCredit)
    requires |cellValues| >= |columnNames|
    ensures labeledRow == Labeled(columnNames, cellValues)
  {
    labeledRow := map[];
    for i := 0 to |columnNames|
      invariant labeledRow == Labeled(columnNames[..i], cellValues)
    {
      LabeledExtend(columnNames, cellValues, i);
      labeledRow := AssignProperty(labeledRow, columnNames[i], cellValues[i]);
    }
    assert columnNames[..|columnNames|] == columnNames;
  }

  /** The scanning loop's exit state: a row number exactly when there is a first unclaimed
      match, and then that match's 1-based number. */
  lemma SelectedRowIsFirstMatch(values: Table, key: CreditKey, creditRowNumber: Option<nat>, rowIndex: nat)
    requires IsTable(values) && rowIndex <= |values|
    requires FirstUnclaimedMatch(values, ColumnsOf(values[0]), key, rowIndex) == FindCreditRow(values, key)
    requires creditRowNumber.None? ==> rowIndex == |values|
    requires creditRowNumber.Some? ==> rowIndex < |values| && creditRowNumber.value == rowIndex + 1 &&
                                       IsUnclaimedMatch(values[rowIndex], ColumnsOf(values[0]), key)
    ensures creditRowNumber == (match FindCreditRow(values, key)
                                case Some(i) => Some(i + 1)
                                case None => None)
  {
  }

  /** The two `setValue` calls, one after the other, produce the marked sheet. */
  lemma CellWritesMarkSheet(values: Table, key: CreditKey, claimedAt: string, putCode: string, r: int, c: int, p: int)
    requires IsTable(values)
    requires FindCreditRow(values, key) == Some(r)
    requires CellInRange(values, r + 1, c + 1) && CellInRange(values, r + 1, p + 1)
    requires c == ColumnsOf(values[0]).claimedAt && p == ColumnsOf(values[0]).putCode
    ensures var once := values[r := values[r][c := claimedAt]];
            once[r := once[r][p := putCode]] == MarkedSheet(values, key, claimedAt, putCode)
  {
    assert !ClaimFails(values, key);
  }

  class Sheet {
    /** The cells of the sheet's data range; row 0 holds the column names. */
    var cells: Table

    ghost predicate Valid()
      reads this
    {
      IsTable(cells)
    }

    constructor (initial: Table)
      requires IsTable(initial)
      ensures Valid() && cells == initial
    {
      cells := initial;
    }

    /** getCreditsByOrcidId: the rows whose ORCID iD cell is `orcidId`, in sheet order,
        each labelled by the header. */
    method GetCreditsByOrcidId(orcidId: string) returns (labeledCredits: seq<LabeledCredit>)
      requires Valid()
      ensures labeledCredits == CreditsView(cells, orcidId)
    {
      var values := cells;  // getDataRange().getValues()
      var columnNames := values[0];
      var orcidIdColumnIndex := IndexOf(columnNames, ORCID_ID_COLUMN);
      var credits := FilterByCell(values, orcidIdColumnIndex, orcidId);
      RowsHaveHeaderWidth(values, credits);
      labeledCredits := [];
      for k := 0 to |credits|
        invariant |labeledCredits| == k
        invariant forall j :: 0 <= j < k ==> labeledCredits[j] == Labeled(columnNames, credits[j])
      {
        var labeledRow := LabelRow(columnNames, credits[k]);
        labeledCredits := labeledCredits + [labeledRow];
      }
    }

    /** markCreditAsClaimed: find the first unclaimed row with the given ORCID iD, credit
        type, start date and end date; write `claimedAt` and `affiliationPutCode` into its
        claimed-at and put-code cells; return the credits view of the updated sheet.
        `claimedAt` stands for `new Date()`, which is never the empty "unclaimed" marker. */
    method MarkCreditAsClaimed(creditType: string, orcidId: string, startDate: string, endDate: string,
                               affiliationPutCode: string, claimedAt: string)
      returns (outcome: Outcome)
      requires Valid()
      requires claimedAt != ""
      modifies this
      ensures Valid()
      ensures cells == MarkedSheet(old(cells), CreditKey(orcidId, creditType, startDate, endDate),
                                   claimedAt, affiliationPutCode)
      ensures outcome.CellOutOfRange? <==> ClaimFails(old(cells), CreditKey(orcidId, creditType, startDate, endDate))
      ensures outcome.Credits? ==> outcome.credits == CreditsView(cells, orcidId)
    {
      var values := cells;  // getDataRange().getValues()
      ghost var key := CreditKey(orcidId, creditType, startDate, endDate);
      var columnNames := values[0];
      var creditTypeColumnIndex := IndexOf(columnNames, CREDIT_TYPE_COLUMN);
      var orcidIdColumnIndex := IndexOf(columnNames, ORCID_ID_COLUMN);
      var startDateColumnIndex := IndexOf(columnNames, START_DATE_COLUMN);
      var endDateColumnIndex := IndexOf(columnNames, END_DATE_COLUMN);
      var claimedAtColumnIndex := IndexOf(columnNames, CLAIMED_AT_COLUMN);
      ghost var cols := ColumnsOf(columnNames);
      assert cols.creditType == creditTypeColumnIndex && cols.orcidId == orcidIdColumnIndex;
      assert cols.startDate == startDateColumnIndex && cols.endDate == endDateColumnIndex;
      assert cols.claimedAt == claimedAtColumnIndex;

      // 1-based column numbers, as Google Sheets counts them.
      var claimedAtColumnNumber := claimedAtColumnIndex + 1;
      var affiliationPutCodeColumnNumber := IndexOf(columnNames, AFFILIATION_PUT_CODE_COLUMN) + 1;

      var creditRowNumber: Option<nat> := None;
      var rowIndex := 0;
      while rowIndex < |values|
        invariant 0 <= rowIndex <= |values|
        invariant creditRowNumber == None
        invariant FirstUnclaimedMatch(values, cols, key, rowIndex) == FindCreditRow(values, key)
      {
        var row := values[rowIndex];
        if && CellIs(row, orcidIdColumnIndex, orcidId)
           && CellIs(row, creditTypeColumnIndex, creditType)
           && CellIs(row, startDateColumnIndex, startDate)
           && CellIs(row, endDateColumnIndex, endDate)
           && CellIs(row, claimedAtColumnIndex, "")
        {
          creditRowNumber := Some(rowIndex + 1);  // 1-based row number
          break;
        }
        assert !IsUnclaimedMatch(values[rowIndex], cols, key);
        rowIndex := rowIndex + 1;
      }
      SelectedRowIsFirstMatch(values, key, creditRowNumber, rowIndex);

      if creditRowNumber.Some? {
        var rowNumber := creditRowNumber.value;
        // Both getCell calls come before either setValue, so a throw writes nothing.
        if !CellInRange(values, rowNumber, claimedAtColumnNumber) ||
           !CellInRange(values, rowNumber, affiliationPutCodeColumnNumber) {
          assert ClaimFails(values, key);
          return CellOutOfRange;
        }
        var r, c, p := rowNumber - 1, claimedAtColumnNumber - 1, affiliationPutCodeColumnNumber - 1;
        CellWritesMarkSheet(values, key, claimedAt, affiliationPutCode, r, c, p);
        cells := cells[r := cells[r][c := claimedAt]];           // claimedAtCell.setValue(claimedAt)
        cells := cells[r := cells[r][p := affiliationPutCode]];  // affiliationPutCodeCell.setValue(...)
      }

      var credits := GetCreditsByOrcidId(orcidId);
      outcome := Credits(credits);
    }
  }
}
