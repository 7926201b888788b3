/**
 * The table-join tool: uploaded CSV files and Excel workbooks become named
 * tables, the user picks a chain of tables and, for each consecutive pair,
 * the two columns to join on, and the joins are folded left to right.
 *
 * Reading files and pandas' merge are not modelled: the readers and the merge
 * are function parameters, and a table is seen only through its columns and
 * its number of rows.
 */
module TableJoin {
  import opened Common

  /** A table as this tool looks at it. */
  datatype Frame = Frame(columns: seq<string>, rowCount: nat)

  /** pandas' `df.shape`: rows by columns. */
  datatype Shape = Shape(rows: nat, cols: nat)

  function ShapeOf(f: Frame): Shape
  {
    Shape(f.rowCount, |f.columns|)
  }

  /** One sheet of a workbook, in workbook order. */
  datatype Sheet = Sheet(name: string, frame: Frame)

  /** An uploaded file: its name and its bytes. */
  datatype UploadedFile = UploadedFile(name: string, content: seq<bv8>)

  // ---------------------------------------------------------------------
  // The registry of uploaded tables (an insertion-ordered dict)
  // ---------------------------------------------------------------------

  /** `dfs_dict`: the tables by key, and the keys in insertion order. */
  datatype Registry = Registry(tables: map<string, Frame>, keys: seq<string>)

  predicate NoDuplicates(keys: seq<string>)
  {
    forall i, j :: 0 <= i < j < |keys| ==> keys[i] != keys[j]
  }

  /** The key order lists every key once and nothing else. */
  ghost predicate Valid(r: Registry)
  {
    && NoDuplicates(r.keys)
    && (forall k :: k in r.tables <==> k in r.keys)
  }

  const EmptyRegistry := Registry(map[], [])

  /** `dfs_dict[key] = df`: a new key goes to the end, an existing one keeps its place and gets the new table. */
  function Put(r: Registry, key: string, f: Frame): (r': Registry)
    ensures Valid(r) ==> Valid(r')
    ensures key in r'.tables && r'.tables[key] == f
    ensures forall k :: k != key ==> (k in r'.tables <==> k in r.tables)
    ensures forall k :: k != key && k in r.tables ==> r'.tables[k] == r.tables[k]
    ensures key in r.tables ==> r'.keys == r.keys
    ensures key !in r.tables ==> r'.keys == r.keys + [key]
  {
    Registry(r.tables[key := f], if key in r.tables then r.keys else r.keys + [key])
  }

  /** The key of a workbook sheet: `f"{file} - {sheet}"`. */
  function SheetKey(fileName: string, sheetName: string): string
  {
    fileName + " - " + sheetName
  }

  lemma SheetKeyInjective(fileName: string, a: string, b: string)
    requires SheetKey(fileName, a) == SheetKey(fileName, b)
    ensures a == b
  {
    PrefixCancel(fileName + " - ", a, b);
  }

  /** Every sheet of a workbook, in order. */
  function PutSheets(r: Registry, fileName: string, sheets: seq<Sheet>): Registry
  {
    if sheets == [] then r
    else
      var n := |sheets| - 1;
      Put(PutSheets(r, fileName, sheets[..n]), SheetKey(fileName, sheets[n].name), sheets[n].frame)
  }

  /** One upload: a `.csv` by its file name, each sheet of an `.xlsx` by its sheet key, anything else ignored. */
  function AddUpload(r: Registry, file: UploadedFile, loadCsv: UploadedFile -> Frame, loadExcel: UploadedFile -> seq<Sheet>): Registry
  {
    if EndsWith(file.name, ".csv") then Put(r, file.name, loadCsv(file))
    else if EndsWith(file.name, ".xlsx") then PutSheets(r, file.name, loadExcel(file))
    else r
  }

  /** The registry after all uploads, in upload order. */
  function RegistryOf(files: seq<UploadedFile>, loadCsv: UploadedFile -> Frame, loadExcel: UploadedFile -> seq<Sheet>): Registry
  {
    if files == [] then EmptyRegistry
    else
      var n := |files| - 1;
      AddUpload(RegistryOf(files[..n], loadCsv, loadExcel), files[n], loadCsv, loadExcel)
  }

  lemma {:induction false} PutSheetsValid(r: Registry, fileName: string, sheets: seq<Sheet>)
    requires Valid(r)
    ensures Valid(PutSheets(r, fileName, sheets))
  {
    if sheets != [] {
      PutSheetsValid(r, fileName, sheets[..|sheets| - 1]);
    }
  }

  /** The key order stays consistent with the tables, whatever is uploaded. */
  lemma {:induction false} RegistryValid(files: seq<UploadedFile>, loadCsv: UploadedFile -> Frame, loadExcel: UploadedFile -> seq<Sheet>)
    ensures Valid(RegistryOf(files, loadCsv, loadExcel))
  {
    if files != [] {
      var n := |files| - 1;
      RegistryValid(files[..n], loadCsv, loadExcel);
      PutSheetsValid(RegistryOf(files[..n], loadCsv, loadExcel), files[n].name, loadExcel(files[n]));
    }
  }

  /** A `.csv` upload adds or replaces exactly one entry, keyed by the file name. */
  lemma CsvUploadAddsOneEntry(r: Registry, file: UploadedFile, loadCsv: UploadedFile -> Frame, loadExcel: UploadedFile -> seq<Sheet>)
    requires EndsWith(file.name, ".csv")
    ensures AddUpload(r, file, loadCsv, loadExcel).tables == r.tables[file.name := loadCsv(file)]
  {
  }

  /** A file that is neither `.csv` nor `.xlsx` changes nothing. */
  lemma OtherUploadAddsNothing(r: Registry, file: UploadedFile, loadCsv: UploadedFile -> Frame, loadExcel: UploadedFile -> seq<Sheet>)
    requires !EndsWith(file.name, ".csv") && !EndsWith(file.name, ".xlsx")
    ensures AddUpload(r, file, loadCsv, loadExcel) == r
  {
  }

  /** Putting a workbook's sheets adds exactly the sheet keys. */
  lemma {:induction false} PutSheetsKeys(r: Registry, fileName: string, sheets: seq<Sheet>)
    ensures PutSheets(r, fileName, sheets).tables.Keys
      == r.tables.Keys + (set k | 0 <= k < |sheets| :: SheetKey(fileName, sheets[k].name))
  {
    if sheets != [] {
      var n := |sheets| - 1;
      PutSheetsKeys(r, fileName, sheets[..n]);
      var prev := PutSheets(r, fileName, sheets[..n]);
      var key := SheetKey(fileName, sheets[n].name);
      assert PutSheets(r, fileName, sheets).tables == prev.tables[key := sheets[n].frame];
      assert PutSheets(r, fileName, sheets).tables.Keys == prev.tables.Keys + {key};
      assert (set k | 0 <= k < |sheets| :: SheetKey(fileName, sheets[k].name))
        == (set k | 0 <= k < n :: SheetKey(fileName, sheets[..n][k].name)) + {SheetKey(fileName, sheets[n].name)};
    }
  }

  /** Putting a workbook's sheets leaves every entry whose key is no sheet key alone. */
  lemma {:induction false} PutSheetsKeepsOthers(r: Registry, fileName: string, sheets: seq<Sheet>, key: string)
    requires key in r.tables
    requires forall k :: 0 <= k < |sheets| ==> key != SheetKey(fileName, sheets[k].name)
    ensures key in PutSheets(r, fileName, sheets).tables
    ensures PutSheets(r, fileName, sheets).tables[key] == r.tables[key]
  {
    if sheets != [] {
      var n := |sheets| - 1;
      assert forall k :: 0 <= k < n ==> sheets[..n][k] == sheets[k];
      PutSheetsKeepsOthers(r, fileName, sheets[..n], key);
    }
  }

  /** After putting a workbook's sheets, each sheet key holds the last sheet of that name. */
  lemma {:induction false} PutSheetsLastWins(r: Registry, fileName: string, sheets: seq<Sheet>, i: nat)
    requires i < |sheets|
    requires forall j :: i < j < |sheets| ==> sheets[j].name != sheets[i].name
    ensures SheetKey(fileName, sheets[i].name) in PutSheets(r, fileName, sheets).tables
    ensures PutSheets(r, fileName, sheets).tables[SheetKey(fileName, sheets[i].name)] == sheets[i].frame
  {
    var n := |sheets| - 1;
    if i < n {
      if SheetKey(fileName, sheets[i].name) == SheetKey(fileName, sheets[n].name) {
        SheetKeyInjective(fileName, sheets[i].name, sheets[n].name);
      }
      assert sheets[..n][i] == sheets[i];
      assert forall j :: i < j < n ==> sheets[..n][j] == sheets[j];
      PutSheetsLastWins(r, fileName, sheets[..n], i);
    }
  }

  /** A name ending in `.xlsx` does not end in `.csv`. */
  lemma XlsxIsNotCsv(name: string)
    requires EndsWith(name, ".xlsx")
    ensures !EndsWith(name, ".csv")
  {
    assert name[|name| - 1] == name[|name| - 5..][4] == 'x';
  }

  /** An `.xlsx` upload adds one entry per sheet keyed `"{file} - {sheet}"` and touches no other key. */
  lemma XlsxUploadAddsSheets(r: Registry, file: UploadedFile, loadCsv: UploadedFile -> Frame, loadExcel: UploadedFile -> seq<Sheet>)
    requires EndsWith(file.name, ".xlsx")
    ensures var sheets := loadExcel(file);
      && AddUpload(r, file, loadCsv, loadExcel).tables.Keys
        == r.tables.Keys + (set k | 0 <= k < |sheets| :: SheetKey(file.name, sheets[k].name))
      && (forall i :: 0 <= i < |sheets| && (forall j :: i < j < |sheets| ==> sheets[j].name != sheets[i].name)
                      ==> AddUpload(r, file, loadCsv, loadExcel).tables[SheetKey(file.name, sheets[i].name)] == sheets[i].frame)
  {
    XlsxIsNotCsv(file.name);
    var sheets := loadExcel(file);
    PutSheetsKeys(r, file.name, sheets);
    forall i | 0 <= i < |sheets| && (forall j :: i < j < |sheets| ==> sheets[j].name != sheets[i].name)
      ensures AddUpload(r, file, loadCsv, loadExcel).tables[SheetKey(file.name, sheets[i].name)] == sheets[i].frame
    {
      PutSheetsLastWins(r, file.name, sheets, i);
    }
  }

  /** A later `.csv` upload with an existing key overwrites the table and keeps the key's place. */
  lemma LaterUploadOverwrites(files: seq<UploadedFile>, file: UploadedFile, loadCsv: UploadedFile -> Frame, loadExcel: UploadedFile -> seq<Sheet>)
    requires EndsWith(file.name, ".csv")
    requires file.name in RegistryOf(files, loadCsv, loadExcel).tables
    ensures RegistryOf(files + [file], loadCsv, loadExcel).tables[file.name] == loadCsv(file)
    ensures RegistryOf(files + [file], loadCsv, loadExcel).keys == RegistryOf(files, loadCsv, loadExcel).keys
  {
    assert (files + [file])[..|files|] == files;
  }

  /** The upload loop filling `dfs_dict`. */
  method BuildRegistry(files: seq<UploadedFile>, loadCsv: UploadedFile -> Frame, loadExcel: UploadedFile -> seq<Sheet>)
    returns (tables: map<string, Frame>, keys: seq<string>)
    ensures Registry(tables, keys) == RegistryOf(files, loadCsv, loadExcel)
    ensures Valid(Registry(tables, keys))
  {
    tables, keys := map[], [];
    for i := 0 to |files|
      invariant Registry(tables, keys) == RegistryOf(files[..i], loadCsv, loadExcel)
    {
      var file := files[i];
      var start := Registry(tables, keys);
      if EndsWith(file.name, ".csv") {
        var df := loadCsv(file);
        if file.name !in tables {
          keys := keys + [file.name];
        }
        tables := tables[file.name := df];
      } else if EndsWith(file.name, ".xlsx") {
        var sheets := loadExcel(file);
        for j := 0 to |sheets|
          invariant Registry(tables, keys) == PutSheets(start, file.name, sheets[..j])
        {
          var key := SheetKey(file.name, sheets[j].name);
          if key !in tables {
            keys := keys + [key];
          }
          tables := tables[key := sheets[j].frame];
          assert sheets[..j + 1][..j] == sheets[..j];
        }
        assert sheets[..|sheets|] == sheets;
      }
      assert files[..i + 1][..i] == files[..i];
    }
    assert files[..|files|] == files;
    RegistryValid(files, loadCsv, loadExcel);
  }

  // ---------------------------------------------------------------------
  // Choosing the join chain
  // ---------------------------------------------------------------------

  /** One requested join: `(df1_name, left_col, df2_name, right_col)`. */
  datatype JoinStep = JoinStep(leftTable: string, leftColumn: string, rightTable: string, rightColumn: string)

  /**
   * What the user picked: `num_tables` table keys, and for each consecutive
   * pair the left and right column ('' when none is chosen).
   */
  datatype JoinChoices = JoinChoices(selected: seq<string>, leftColumns: seq<string>, rightColumns: seq<string>)

  /** The slider allows 2 to 10 tables; one column choice per consecutive pair. */
  predicate WellSized(c: JoinChoices)
  {
    && 2 <= |c.selected| <= 10
    && |c.leftColumns| == |c.selected| - 1
    && |c.rightColumns| == |c.selected| - 1
  }

  /** Pair i is used when both tables are registered and both columns are chosen. */
  predicate Accepts(tables: map<string, Frame>, c: JoinChoices, i: nat)
    requires WellSized(c) && i < |c.selected| - 1
  {
    c.selected[i] in tables && c.selected[i + 1] in tables && c.leftColumns[i] != "" && c.rightColumns[i] != ""
  }

  function StepAt(c: JoinChoices, i: nat): JoinStep
    requires WellSized(c) && i < |c.selected| - 1
  {
    JoinStep(c.selected[i], c.leftColumns[i], c.selected[i + 1], c.rightColumns[i])
  }

  /** The pairs among the first n that are used, in order. */
  function AcceptedPairs(tables: map<string, Frame>, c: JoinChoices, n: nat): seq<nat>
    requires WellSized(c) && n <= |c.selected| - 1
  {
    if n == 0 then []
    else AcceptedPairs(tables, c, n - 1) + (if Accepts(tables, c, n - 1) then [n - 1] else [])
  }

  /** `column_mappings` after the first n pairs. */
  function MappingsUpTo(tables: map<string, Frame>, c: JoinChoices, n: nat): seq<JoinStep>
    requires WellSized(c) && n <= |c.selected| - 1
  {
    if n == 0 then []
    else MappingsUpTo(tables, c, n - 1) + (if Accepts(tables, c, n - 1) then [StepAt(c, n - 1)] else [])
  }

  /** `column_mappings` once every pair has been considered. */
  function Mappings(tables: map<string, Frame>, c: JoinChoices): seq<JoinStep>
    requires WellSized(c)
  {
    MappingsUpTo(tables, c, |c.selected| - 1)
  }

  /**
   * The mappings are exactly the used consecutive pairs, in increasing pair
   * order: one step per pair whose tables are registered and whose columns
   * are both chosen, and no other.
   */
  lemma {:induction false} MappingsAreAcceptedPairs(tables: map<string, Frame>, c: JoinChoices, n: nat)
    requires WellSized(c) && n <= |c.selected| - 1
    ensures var m, a := MappingsUpTo(tables, c, n), AcceptedPairs(tables, c, n);
      && |m| == |a| <= n
      && (forall t :: 0 <= t < |a| ==> a[t] < n && Accepts(tables, c, a[t]) && m[t] == StepAt(c, a[t]))
      && (forall s, t :: 0 <= s < t < |a| ==> a[s] < a[t])
      && (forall i :: 0 <= i < n && Accepts(tables, c, i) ==> i in a)
  {
    if n > 0 {
      MappingsAreAcceptedPairs(tables, c, n - 1);
    }
  }

  /** Every step names two registered tables and two chosen columns. */
  lemma MappingsResolve(tables: map<string, Frame>, c: JoinChoices)
    requires WellSized(c)
    ensures forall s :: s in Mappings(tables, c) ==>
      s.leftTable in tables && s.rightTable in tables && s.leftColumn != "" && s.rightColumn != ""
  {
    var n := |c.selected| - 1;
    MappingsAreAcceptedPairs(tables, c, n);
    var m, a := Mappings(tables, c), AcceptedPairs(tables, c, n);
    forall s | s in m
      ensures s.leftTable in tables && s.rightTable in tables && s.leftColumn != "" && s.rightColumn != ""
    {
      var t :| 0 <= t < |m| && m[t] == s;
      assert Accepts(tables, c, a[t]);
    }
  }

  /** The loop building `column_mappings` over the consecutive pairs. */
  method BuildMappings(tables: map<string, Frame>, c: JoinChoices) returns (mappings: seq<JoinStep>)
    requires WellSized(c)
    ensures mappings == Mappings(tables, c)
    ensures |mappings| <= |c.selected| - 1
    ensures forall s :: s in mappings ==>
      s.leftTable in tables && s.rightTable in tables && s.leftColumn != "" && s.rightColumn != ""
  {
    mappings := [];
    for i := 0 to |c.selected| - 1
      invariant mappings == MappingsUpTo(tables, c, i)
    {
      var df1Name, df2Name := c.selected[i], c.selected[i + 1];
      if df1Name in tables && df2Name in tables {
        var leftCol, rightCol := c.leftColumns[i], c.rightColumns[i];
        if leftCol != "" && rightCol != "" {
          mappings := mappings + [JoinStep(df1Name, leftCol, df2Name, rightCol)];
        }
      }
    }
    MappingsAreAcceptedPairs(tables, c, |c.selected| - 1);
    MappingsResolve(tables, c);
  }

  // ---------------------------------------------------------------------
  // Performing the joins
  // ---------------------------------------------------------------------

  /** The `how=` argument of the merge. */
  datatype JoinType = Inner | LeftOuter | RightOuter | FullOuter

  /** Every step's tables are registered. */
  predicate Resolves(tables: map<string, Frame>, ms: seq<JoinStep>)
  {
    forall s :: s in ms ==> s.leftTable in tables && s.rightTable in tables
  }

  /**
   * The left fold of the merges: the first step merges its two tables, each
   * later step merges the running result with its right table.
   */
  function JoinChain(tables: map<string, Frame>, ms: seq<JoinStep>, how: JoinType,
                     merge: (Frame, Frame, string, string, JoinType) -> Frame): Frame
    requires ms != [] && Resolves(tables, ms)
  {
    var last := ms[|ms| - 1];
    var right := tables[last.rightTable];
    if |ms| == 1 then merge(tables[last.leftTable], right, last.leftColumn, last.rightColumn, how)
    else merge(JoinChain(tables, ms[..|ms| - 1], how, merge), right, last.leftColumn, last.rightColumn, how)
  }

  /**
   * The chain reads the left table of the first step only: two registries
   * that agree on it and on every step's right table give the same result.
   */
  lemma {:induction false} JoinChainReadsFirstLeftAndRights(t1: map<string, Frame>, t2: map<string, Frame>, ms: seq<JoinStep>,
                                                            how: JoinType, merge: (Frame, Frame, string, string, JoinType) -> Frame)
    requires ms != [] && Resolves(t1, ms) && Resolves(t2, ms)
    requires t1[ms[0].leftTable] == t2[ms[0].leftTable]
    requires forall s :: s in ms ==> t1[s.rightTable] == t2[s.rightTable]
    ensures JoinChain(t1, ms, how, merge) == JoinChain(t2, ms, how, merge)
  {
    if |ms| > 1 {
      var front := ms[..|ms| - 1];
      assert front[0] == ms[0];
      assert forall s :: s in front ==> s in ms;
      JoinChainReadsFirstLeftAndRights(t1, t2, front, how, merge);
    }
  }

  /** `pre_join_dimensions`: the left and then the right table of every step, with its shape. */
  function PreJoinDimensions(tables: map<string, Frame>, ms: seq<JoinStep>): seq<(string, Shape)>
    requires Resolves(tables, ms)
  {
    if ms == [] then []
    else
      var last := ms[|ms| - 1];
      PreJoinDimensions(tables, ms[..|ms| - 1])
        + [(last.leftTable, ShapeOf(tables[last.leftTable])), (last.rightTable, ShapeOf(tables[last.rightTable]))]
  }

  /** Two dimension entries per step, in step order: positions 2j and 2j+1 belong to step j. */
  lemma {:induction false} PreJoinDimensionsLayout(tables: map<string, Frame>, ms: seq<JoinStep>)
    requires Resolves(tables, ms)
    ensures |PreJoinDimensions(tables, ms)| == 2 * |ms|
    ensures forall j :: 0 <= j < |ms| ==>
      && PreJoinDimensions(tables, ms)[2 * j] == (ms[j].leftTable, ShapeOf(tables[ms[j].leftTable]))
      && PreJoinDimensions(tables, ms)[2 * j + 1] == (ms[j].rightTable, ShapeOf(tables[ms[j].rightTable]))
  {
    if ms != [] {
      var front := ms[..|ms| - 1];
      assert forall s :: s in front ==> s in ms;
      PreJoinDimensionsLayout(tables, front);
      forall j | 0 <= j < |ms| - 1
        ensures ms[j] == front[j]
      {
      }
    }
  }

  /**
   * The join loop: no mappings, no join; otherwise the left fold of merges,
   * with two dimension entries recorded per step.
   */
  method PerformJoins(tables: map<string, Frame>, ms: seq<JoinStep>, how: JoinType,
                      merge: (Frame, Frame, string, string, JoinType) -> Frame)
    returns (result: Option<Frame>, dims: seq<(string, Shape)>)
    requires Resolves(tables, ms)
    ensures ms == [] <==> result.None?
    ensures ms != [] ==> result == Some(JoinChain(tables, ms, how, merge))
    ensures dims == PreJoinDimensions(tables, ms)
  {
    if ms == [] {
      return None, [];
    }
    result, dims := None, [];
    for i := 0 to |ms|
      invariant Resolves(tables, ms[..i])
      invariant i == 0 <==> result.None?
      invariant i > 0 ==> result == Some(JoinChain(tables, ms[..i], how, merge))
      invariant dims == PreJoinDimensions(tables, ms[..i])
    {
      var step := ms[i];
      assert step in ms;
      var df1, df2 := tables[step.leftTable], tables[step.rightTable];
      dims := dims + [(step.leftTable, ShapeOf(df1))];
      dims := dims + [(step.rightTable, ShapeOf(df2))];
      assert ms[..i + 1][..i] == ms[..i];
      assert forall s :: s in ms[..i + 1] ==> s in ms;
      if result.None? {
        result := Some(merge(df1, df2, step.leftColumn, step.rightColumn, how));
      } else {
        result := Some(merge(result.value, df2, step.leftColumn, step.rightColumn, how));
      }
    }
    assert ms[..|ms|] == ms;
  }

  // ---------------------------------------------------------------------
  // The page
  // ---------------------------------------------------------------------

  /** What the page ends up showing. */
  datatype Screen =
    | NoUploads                                          // nothing uploaded yet
    | NeedTwoTables                                      // "Please upload at least two tables to join."
    | Choosing(mappings: seq<JoinStep>)                  // joins configured, button not pressed
    | NoValidColumns                                     // pressed without any usable pair
    | Joined(result: Frame, dims: seq<(string, Shape)>)  // the joined table and the pre-join shapes

  /**
   * One run of the page: register the uploads, offer joining only when more
   * than one table is registered, build the mappings, and join when the
   * button is pressed and some mapping exists.
   */
  method RunJoinTool(files: seq<UploadedFile>, loadCsv: UploadedFile -> Frame, loadExcel: UploadedFile -> seq<Sheet>,
                     c: JoinChoices, how: JoinType, pressed: bool,
                     merge: (Frame, Frame, string, string, JoinType) -> Frame)
    returns (screen: Screen)
    requires WellSized(c)
    ensures var r := RegistryOf(files, loadCsv, loadExcel);
      && (screen.NoUploads? <==> files == [])
      && (screen.NeedTwoTables? <==> files != [] && |r.tables| <= 1)
      && (screen.NoValidColumns? <==> files != [] && |r.tables| > 1 && pressed && Mappings(r.tables, c) == [])
      && (screen.Choosing? ==> !pressed && screen.mappings == Mappings(r.tables, c))
      && (screen.Joined? ==>
            && pressed && |r.tables| > 1 && Mappings(r.tables, c) != []
            && Resolves(r.tables, Mappings(r.tables, c))
            && screen.result == JoinChain(r.tables, Mappings(r.tables, c), how, merge)
            && screen.dims == PreJoinDimensions(r.tables, Mappings(r.tables, c)))
  {
    if files == [] {
      return NoUploads;
    }
    var tables, keys := BuildRegistry(files, loadCsv, loadExcel);
    if |tables| <= 1 {
      return NeedTwoTables;
    }
    var mappings := BuildMappings(tables, c);
    if !pressed {
      return Choosing(mappings);
    }
    var result, dims := PerformJoins(tables, mappings, how, merge);
    if result.None? {
      return NoValidColumns;
    }
    screen := Joined(result.value, dims);
  }
}
