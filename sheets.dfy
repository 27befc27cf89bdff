/**
 * The part of an xlsx workbook the tool fills in: one named sheet whose rows
 * are grown by `AddRow` and `AddCell`, and the fixed six-cell row layout both
 * `SaveToExcel` functions write for a `PersonData` record.
 */
module Sheets {
  import opened Types

  /**
   * A worksheet. `AddRow` starts a new, empty row at the end and `AddCell`
   * appends a cell to that row, which is the only row the tool ever adds cells to.
   */
  class Sheet {
    const name: string
    var rows: seq<seq<string>>

    constructor (name: string)
      ensures this.name == name && rows == []
    {
      this.name := name;
      rows := [];
    }

    method AddRow()
      modifies this
      ensures rows == old(rows) + [[]]
    {
      rows := rows + [[]];
    }

    method AddCell(value: string)
      requires |rows| > 0
      modifies this
      ensures rows == old(rows)[..|old(rows)| - 1] + [old(rows)[|old(rows)| - 1] + [value]]
    {
      rows := rows[..|rows| - 1] + [rows[|rows| - 1] + [value]];
    }
  }

  /**
   * The cells of one record, in the column order of the sheet. A row holds six
   * cells and loses nothing: reading it back gives the record.
   */
  function Row(p: PersonData): (row: seq<string>)
    ensures |row| == 6 && RecordOf(row) == p
  {
    [p.firstName, p.lastName, p.organization, p.email, p.domain, p.title]
  }

  /** Reads a six-cell row back as a record. */
  function RecordOf(row: seq<string>): (p: PersonData)
    requires |row| == 6
  {
    PersonData(row[0], row[1], row[2], row[3], row[4], row[5])
  }

  /**
   * One row per record, in order, and no header row: the rows determine the
   * records that were written.
   */
  function Rows(ps: seq<PersonData>): (rows: seq<seq<string>>)
    ensures |rows| == |ps|
    ensures forall k :: 0 <= k < |ps| ==> |rows[k]| == 6 && RecordOf(rows[k]) == ps[k]
  {
    seq(|ps|, k requires 0 <= k < |ps| => Row(ps[k]))
  }

  /** Appending a cell to the last row of `rows + [row]` extends `row`. */
  lemma LastRowAppend(rows: seq<seq<string>>, row: seq<string>, value: string)
    ensures var r := rows + [row]; r[..|r| - 1] + [r[|r| - 1] + [value]] == rows + [row + [value]]
  {
    var r := rows + [row];
    assert r[..|r| - 1] == rows;
  }

  /**
   * The loop shared by both `SaveToExcel` functions: for each record, add a row
   * and then its six cells.
   */
  method WriteRows(sheet: Sheet, personData: seq<PersonData>)
    modifies sheet
    ensures sheet.rows == old(sheet.rows) + Rows(personData)
  {
    for i := 0 to |personData|
      invariant sheet.rows == old(sheet.rows) + Rows(personData[..i])
    {
      var data := personData[i];
      ghost var before := sheet.rows;
      ghost var cells: seq<string> := [];
      sheet.AddRow();
      LastRowAppend(before, cells, data.firstName);
      sheet.AddCell(data.firstName);
      cells := cells + [data.firstName];
      LastRowAppend(before, cells, data.lastName);
      sheet.AddCell(data.lastName);
      cells := cells + [data.lastName];
      LastRowAppend(before, cells, data.organization);
      sheet.AddCell(data.organization);
      cells := cells + [data.organization];
      LastRowAppend(before, cells, data.email);
      sheet.AddCell(data.email);
      cells := cells + [data.email];
      LastRowAppend(before, cells, data.domain);
      sheet.AddCell(data.domain);
      cells := cells + [data.domain];
      LastRowAppend(before, cells, data.title);
      sheet.AddCell(data.title);
      cells := cells + [data.title];
      assert cells == Row(data);
      assert Rows(personData[..i + 1]) == Rows(personData[..i]) + [Row(data)];
    }
    assert personData[..|personData|] == personData;
  }
}
