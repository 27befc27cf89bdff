/**
 * The rest of the program's entry point (main.go): its own `SaveToExcel`, which
 * sanitizes and lower-cases the organization for the file name, and the
 * pipeline of `main` from loading the configuration to saving the sheet.
 */
module Apollonator {
  import opened Wrappers
  import opened GoStrings
  import opened Types
  import opened ConfigLoader
  import opened NamesFile
  import opened Names
  import opened Sheets
  import Excel

  /** A character of the class `[a-zA-Z0-9_]`. */
  predicate IsWordChar(c: char)
  {
    ('a' <= c <= 'z') || ('A' <= c <= 'Z') || ('0' <= c <= '9') || c == '_'
  }

  /** A character of the class `[a-z0-9_]`. */
  predicate IsLowerWordChar(c: char)
  {
    ('a' <= c <= 'z') || ('0' <= c <= '9') || c == '_'
  }

  /**
   * `regexp.MustCompile("[^a-zA-Z0-9_]+").ReplaceAllString(s, "")`: every run of
   * characters outside the class is deleted, which is every such character.
   */
  function KeepWordChars(s: string): (r: string)
    ensures |r| <= |s|
    ensures forall i :: 0 <= i < |r| ==> IsWordChar(r[i])
  {
    if s == [] then []
    else if IsWordChar(s[0]) then [s[0]] + KeepWordChars(s[1..])
    else KeepWordChars(s[1..])
  }

  /** The organization as it appears in the output file name. */
  function SafeName(organization: string): (r: string)
    ensures forall i :: 0 <= i < |r| ==> IsLowerWordChar(r[i])
  {
    ToLower(KeepWordChars(organization))
  }

  /** "apollonator_" + the safe organization name + ".xlsx". */
  function OutputFileName(organization: string): (name: string)
    ensures 17 <= |name| && name[..12] == "apollonator_" && name[|name| - 5..] == ".xlsx"
    ensures forall i :: 12 <= i < |name| - 5 ==> IsLowerWordChar(name[i])
  {
    "apollonator_" + SafeName(organization) + ".xlsx"
  }

  /**
   * main.go's `SaveToExcel`: the same "Employee Info" sheet as pkg/excel.go,
   * saved under the sanitized, lower-cased name. `saveError` is what `file.Save`
   * reports; it is returned as is.
   */
  method SaveToExcel(personData: seq<PersonData>, organization: string, saveError: Option<string>)
    returns (sheet: Sheet, fileName: string, err: Option<string>)
    ensures fresh(sheet)
    ensures sheet.name == "Employee Info" && sheet.rows == Rows(personData)
    ensures fileName == OutputFileName(organization)
    ensures err == saveError
  {
    sheet := new Sheet("Employee Info");
    WriteRows(sheet, personData);
    var safeOrganizationName := KeepWordChars(organization);
    fileName := "apollonator_" + ToLower(safeOrganizationName) + ".xlsx";
    err := saveError;
  }

  // ---------------------------------------------------------------------
  // The sanitizer

  /**
   * The sanitizer only deletes: every word character is kept as often as it
   * occurs, and nothing else remains.
   */
  lemma {:induction false} KeepWordCharsCounts(s: string)
    ensures multiset(KeepWordChars(s)) <= multiset(s)
    ensures forall c :: IsWordChar(c) ==> multiset(KeepWordChars(s))[c] == multiset(s)[c]
    decreases |s|
  {
    if s != [] {
      KeepWordCharsCounts(s[1..]);
      assert s == [s[0]] + s[1..];
    }
  }

  /** Deletion is character by character, so it distributes over concatenation. */
  lemma {:induction false} KeepWordCharsConcat(a: string, b: string)
    ensures KeepWordChars(a + b) == KeepWordChars(a) + KeepWordChars(b)
    decreases |a|
  {
    if a == [] {
      assert a + b == b;
    } else {
      assert (a + b)[1..] == a[1..] + b;
      KeepWordCharsConcat(a[1..], b);
    }
  }

  /** A string is left unchanged by the sanitizer exactly when it is all word characters. */
  lemma {:induction false} KeepWordCharsFixed(s: string)
    ensures KeepWordChars(s) == s <==> AllWordChars(s)
    decreases |s|
  {
    if s != [] {
      KeepWordCharsFixed(s[1..]);
      if !IsWordChar(s[0]) {
        assert |KeepWordChars(s)| < |s| by {
          assert KeepWordChars(s) == KeepWordChars(s[1..]);
        }
      } else {
        assert forall i :: 1 <= i < |s| ==> s[i] == s[1..][i - 1];
      }
    }
  }

  /** Sanitizing a safe name again changes nothing. */
  lemma SafeNameIdempotent(organization: string)
    ensures SafeName(SafeName(organization)) == SafeName(organization)
  {
    var n := SafeName(organization);
    KeepWordCharsFixed(n);
    assert KeepWordChars(n) == n;
    forall i | 0 <= i < |n| ensures LowerChar(n[i]) == n[i] {
    }
  }

  /** The sanitizer turns the organization "O'Reilly & Sons" into "oreillysons". */
  lemma OReillyAndSons(organization: string)
    requires organization == "O'Reilly & Sons"
    ensures SafeName(organization) == "oreillysons"
  {
    OReillyPieces(organization);
    OReillyWords();
    OReillyLowers();
    SafeNameOfWords(organization, "O", "'", "Reilly", " & ", "Sons", "o", "reilly", "sons");
  }

  /** "O'Reilly & Sons" cut into words and the runs between them, and its words rejoined in lower case. */
  lemma OReillyPieces(organization: string)
    requires organization == "O'Reilly & Sons"
    ensures organization == "O" + "'" + "Reilly" + " & " + "Sons"
    ensures "o" + "reilly" + "sons" == "oreillysons"
  {
  }

  /** The words of "O'Reilly & Sons" and the runs between them. */
  lemma OReillyWords()
    ensures AllWordChars("O") && AllWordChars("Reilly") && AllWordChars("Sons")
    ensures NoWordChars("'") && NoWordChars(" & ")
  {
  }

  /** The words of "O'Reilly & Sons", lower-cased. */
  lemma OReillyLowers()
    ensures LowersTo("O", "o") && LowersTo("Reilly", "reilly") && LowersTo("Sons", "sons")
  {
  }

  predicate AllWordChars(s: string)
  {
    forall i :: 0 <= i < |s| ==> IsWordChar(s[i])
  }

  predicate NoWordChars(s: string)
  {
    forall i :: 0 <= i < |s| ==> !IsWordChar(s[i])
  }

  /**
   * Three words separated by runs of other characters sanitize to the three
   * words, lower-cased and run together.
   */
  lemma SafeNameOfWords(organization: string, x: string, p: string, y: string, q: string, z: string,
                        lx: string, ly: string, lz: string)
    requires organization == x + p + y + q + z
    requires AllWordChars(x) && AllWordChars(y) && AllWordChars(z)
    requires NoWordChars(p) && NoWordChars(q)
    requires LowersTo(x, lx) && LowersTo(y, ly) && LowersTo(z, lz)
    ensures SafeName(organization) == lx + ly + lz
  {
    KeepDrop(x + p + y, q, z);
    KeepDrop(x, p, y);
    KeepWordCharsFixed(x);
    KeepWordCharsFixed(y);
    KeepWordCharsFixed(z);
    assert KeepWordChars(organization) == x + y + z;
    ToLowerConcat(x + y, z);
    ToLowerConcat(x, y);
    assert ToLower(x) == lx && ToLower(y) == ly && ToLower(z) == lz;
  }

  /** Characters outside the class between two strings vanish. */
  lemma KeepDrop(a: string, x: string, b: string)
    requires NoWordChars(x)
    ensures KeepWordChars(a + x + b) == KeepWordChars(a) + KeepWordChars(b)
  {
    KeepWordCharsConcat(a + x, b);
    KeepWordCharsConcat(a, x);
    KeepNone(x);
    assert KeepWordChars(a) + [] == KeepWordChars(a);
  }

  /** A string with no character of the class is deleted entirely. */
  lemma {:induction false} KeepNone(s: string)
    requires NoWordChars(s)
    ensures KeepWordChars(s) == []
    decreases |s|
  {
    if s != [] {
      KeepNone(s[1..]);
    }
  }

  /**
   * The two `SaveToExcel` functions name the file alike exactly when the
   * organization already consists only of `[a-z0-9_]`.
   */
  lemma FileNamesAgree(organization: string)
    ensures Excel.FileName(organization) == OutputFileName(organization) <==>
              forall i :: 0 <= i < |organization| ==> IsLowerWordChar(organization[i])
  {
    var n := SafeName(organization);
    if Excel.FileName(organization) == OutputFileName(organization) {
      assert "apollonator_" + organization + ".xlsx" == "apollonator_" + n + ".xlsx";
      assert |organization| == |n|;
      assert organization == ("apollonator_" + organization + ".xlsx")[12..12 + |organization|];
      assert n == ("apollonator_" + n + ".xlsx")[12..12 + |n|];
    }
    if forall i :: 0 <= i < |organization| ==> IsLowerWordChar(organization[i]) {
      KeepWordCharsFixed(organization);
      assert KeepWordChars(organization) == organization;
      assert ToLower(organization) == organization;
    }
  }

  // ---------------------------------------------------------------------
  // The program

  /** The workbook handed to `file.Save`. */
  datatype Saved = Saved(fileName: string, sheetName: string, rows: seq<seq<string>>)

  /** The configuration the run uses once loading succeeded. */
  function LoadedConfig(configFile: Decoded): Config
  {
    ParseYAML(configFile).config
  }

  /** The lines the run reads once loading succeeded. */
  function LoadedNames(namesFile: Result<string, string>): seq<string>
  {
    GetNamesFromFile(namesFile).names
  }

  /** Both input files loaded. */
  predicate Loaded(configFile: Decoded, namesFile: Result<string, string>)
  {
    ParseYAML(configFile).err.None? && GetNamesFromFile(namesFile).err.None?
  }

  /**
   * `main` after argument parsing (main.go:223-287). The inputs stand for what
   * the configuration and names files held, the `-e` flag, the API, and the
   * outcome of `file.Save`. The exit status is 1 for `os.Exit(1)` and 2 for a
   * runtime panic; `saved` is the workbook passed to `file.Save`, if any.
   */
  method RunApollonator(configFile: Decoded, namesFile: Result<string, string>, excel: bool,
                        requester: Requester, saveError: Option<string>)
    returns (exitCode: int, saved: Option<Saved>)
    ensures exitCode == 0 <==>
              Loaded(configFile, namesFile) &&
              RunLines(LoadedConfig(configFile), requester, LoadedNames(namesFile)).halt.None? &&
              (excel ==> saveError.None?)
    ensures exitCode == 2 <==>
              Loaded(configFile, namesFile) &&
              RunLines(LoadedConfig(configFile), requester, LoadedNames(namesFile)).halt.Some? &&
              RunLines(LoadedConfig(configFile), requester, LoadedNames(namesFile)).halt.value.IndexOutOfRange?
    ensures exitCode in {0, 1, 2}
    ensures saved.Some? <==>
              excel && Loaded(configFile, namesFile) &&
              RunLines(LoadedConfig(configFile), requester, LoadedNames(namesFile)).halt.None?
    ensures saved.Some? ==>
              saved.value == Saved(OutputFileName(LoadedConfig(configFile).organization), "Employee Info",
                                   Rows(RunLines(LoadedConfig(configFile), requester, LoadedNames(namesFile)).records))
  {
    var cfg := ParseYAML(configFile);
    if cfg.err.Some? {
      return 1, None;
    }
    var apollonator := cfg.config;

    var names := GetNamesFromFile(namesFile);
    if names.err.Some? {
      return 1, None;
    }

    var personData, halt := CollectPersonData(apollonator, requester, names.names);
    if halt == Some(RateLimitExit) {
      return 1, None;
    } else if halt.Some? {
      return 2, None;
    }

    if excel {
      var sheet, fileName, err := SaveToExcel(personData, apollonator.organization, saveError);
      saved := Some(Saved(fileName, sheet.name, sheet.rows));
      if err.Some? {
        return 1, saved;
      }
      return 0, saved;
    }
    return 0, None;
  }
}
