/** `SaveToExcel` of pkg/excel.go: the organization goes into the file name verbatim. */
module Excel {
  import opened Wrappers
  import opened Types
  import opened Sheets

  /** "apollonator_" + organization + ".xlsx", with the organization unchanged. */
  function FileName(organization: string): (name: string)
    ensures |name| == 12 + |organization| + 5
    ensures name[..12] == "apollonator_" && name[|name| - 5..] == ".xlsx"
    ensures name[12..|name| - 5] == organization
  {
    "apollonator_" + organization + ".xlsx"
  }

  /**
   * Builds the "Employee Info" sheet, one row per record, and names the file
   * to save it to. `saveError` is what `file.Save` reports; it is returned as is.
   */
  method SaveToExcel(personData: seq<PersonData>, organization: string, saveError: Option<string>)
    returns (sheet: Sheet, fileName: string, err: Option<string>)
    ensures fresh(sheet)
    ensures sheet.name == "Employee Info" && sheet.rows == Rows(personData)
    ensures fileName == FileName(organization)
    ensures err == saveError
  {
    sheet := new Sheet("Employee Info");
    WriteRows(sheet, personData);
    fileName := "apollonator_" + organization + ".xlsx";
    err := saveError;
  }
}
