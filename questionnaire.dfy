/**
 * The questionnaire editor: forms are stored one row per project in a table
 * with columns Project, QandA (the question/answer table as JSON text) and
 * Timestamp. The page de-duplicates the stored rows, loads them (the load
 * can seed a default project into a table without a Project column), opens
 * the chosen form or a new one, lets the user edit the answers, and saves
 * with update-or-insert.
 *
 * The database is a value (`StoredTable`); JSON parsing and the clock are
 * parameters.
 */
module Questionnaire {
  import opened Common

  /** The seed project, standing for "start a new form". */
  const DefaultProject: string := "New Project (Default)"

  /** A question/answer table: the two columns, row-aligned. */
  datatype QandAFrame = QandAFrame(questions: seq<string>, answers: seq<string>)

  /** One stored row; the QandA cell is JSON text, or None when it is not a string (NULL, NaN). */
  datatype Row = Row(project: string, qanda: Option<string>, timestamp: string)

  /** The stored table: the names of its columns and its rows. */
  datatype StoredTable = StoredTable(columns: set<string>, rows: seq<Row>)

  // ---------------------------------------------------------------------
  // Reading QandA cells
  // ---------------------------------------------------------------------

  /**
   * json_to_dataframe: only a string is parsed. Anything else gives
   * `pd.DataFrame()`, a frame without any column, written None here.
   */
  function JsonToFrame(cell: Option<string>, readJson: string -> QandAFrame): (f: Option<QandAFrame>)
    ensures f.None? <==> cell.None?
    ensures cell.Some? ==> f == Some(readJson(cell.value))
  {
    match cell
    case None => None
    case Some(text) => Some(readJson(text))
  }

  // ---------------------------------------------------------------------
  // remove_duplicates: keep the last row of each (QandA, Project) pair
  // ---------------------------------------------------------------------

  /** The de-duplication key, `subset=['QandA', 'Project']`. */
  function Key(r: Row): (Option<string>, string)
  {
    (r.qanda, r.project)
  }

  function KeySet(rows: seq<Row>): set<(Option<string>, string)>
  {
    set i | 0 <= i < |rows| :: Key(rows[i])
  }

  /** `drop_duplicates(subset=['QandA', 'Project'], keep='last')` */
  function KeepLast(rows: seq<Row>): seq<Row>
  {
    if rows == [] then []
    else (if Key(rows[0]) in KeySet(rows[1..]) then [] else [rows[0]]) + KeepLast(rows[1..])
  }

  lemma KeySetCons(rows: seq<Row>)
    requires rows != []
    ensures KeySet(rows) == {Key(rows[0])} + KeySet(rows[1..])
  {
    var tail := rows[1..];
    forall k | k in KeySet(rows)
      ensures k in {Key(rows[0])} + KeySet(tail)
    {
      var i :| 0 <= i < |rows| && Key(rows[i]) == k;
      if i > 0 {
        assert tail[i - 1] == rows[i];
      }
    }
    forall k | k in KeySet(tail)
      ensures k in KeySet(rows)
    {
      var i :| 0 <= i < |tail| && Key(tail[i]) == k;
      assert rows[i + 1] == tail[i];
    }
  }

  /** Every key of the input survives, and no other. */
  lemma {:induction false} KeepLastSameKeys(rows: seq<Row>)
    ensures KeySet(KeepLast(rows)) == KeySet(rows)
  {
    if rows != [] {
      KeepLastSameKeys(rows[1..]);
      KeySetCons(rows);
      var out := KeepLast(rows);
      if Key(rows[0]) !in KeySet(rows[1..]) {
        assert out == [rows[0]] + KeepLast(rows[1..]);
        assert out[1..] == KeepLast(rows[1..]);
        KeySetCons(out);
      } else {
        assert out == KeepLast(rows[1..]);
      }
    }
  }

  /** No two surviving rows share a key. */
  lemma {:induction false} KeepLastDistinctKeys(rows: seq<Row>)
    ensures forall i, j :: 0 <= i < j < |KeepLast(rows)| ==> Key(KeepLast(rows)[i]) != Key(KeepLast(rows)[j])
  {
    if rows != [] {
      var rest := KeepLast(rows[1..]);
      KeepLastDistinctKeys(rows[1..]);
      KeepLastSameKeys(rows[1..]);
      if Key(rows[0]) !in KeySet(rows[1..]) {
        var out := KeepLast(rows);
        assert out == [rows[0]] + rest;
        forall i, j | 0 <= i < j < |out|
          ensures Key(out[i]) != Key(out[j])
        {
          if i == 0 {
            assert out[j] == rest[j - 1];
            assert Key(rest[j - 1]) in KeySet(rest);
          } else {
            assert out[i] == rest[i - 1] && out[j] == rest[j - 1];
          }
        }
      }
    }
  }

  /** The survivors keep their relative order. */
  lemma {:induction false} KeepLastInOrder(rows: seq<Row>)
    ensures Subsequence(KeepLast(rows), rows)
  {
    if rows != [] {
      KeepLastInOrder(rows[1..]);
      var out, rest := KeepLast(rows), KeepLast(rows[1..]);
      if Key(rows[0]) in KeySet(rows[1..]) {
        assert out == rest;
        if out != [] && out[0] == rows[0] {
          KeepLastSameKeys(rows[1..]);
          assert out[1..] == KeepLast(rows[1..])[1..];
          SubsequenceTail(rest, rows[1..]);
        }
      } else {
        assert out == [rows[0]] + rest;
        assert out[1..] == rest;
      }
    }
  }

  /** A row survives exactly when no later row has its key. */
  lemma {:induction false} KeepLastKeepsLastOccurrences(rows: seq<Row>, i: nat)
    requires i < |rows|
    ensures rows[i] in KeepLast(rows) <== (forall j :: i < j < |rows| ==> Key(rows[j]) != Key(rows[i]))
  {
    if (forall j :: i < j < |rows| ==> Key(rows[j]) != Key(rows[i])) {
      var out := KeepLast(rows);
      if i == 0 {
        forall j | 0 <= j < |rows[1..]|
          ensures Key(rows[1..][j]) != Key(rows[0])
        {
          assert rows[1..][j] == rows[j + 1];
        }
        assert out[0] == rows[0];
      } else {
        assert rows[1..][i - 1] == rows[i];
        assert forall j :: i - 1 < j < |rows[1..]| ==> rows[1..][j] == rows[j + 1];
        KeepLastKeepsLastOccurrences(rows[1..], i - 1);
        assert out == (if Key(rows[0]) in KeySet(rows[1..]) then [] else [rows[0]]) + KeepLast(rows[1..]);
      }
    }
  }

  /** Every survivor is the last row of its key in the input. */
  lemma {:induction false} KeepLastOnlyLastOccurrences(rows: seq<Row>, r: Row)
    requires r in KeepLast(rows)
    ensures exists i :: 0 <= i < |rows| && rows[i] == r && forall j :: i < j < |rows| ==> Key(rows[j]) != Key(r)
  {
    var rest := KeepLast(rows[1..]);
    if r in rest {
      KeepLastOnlyLastOccurrences(rows[1..], r);
      var i :| 0 <= i < |rows[1..]| && rows[1..][i] == r && forall j :: i < j < |rows[1..]| ==> Key(rows[1..][j]) != Key(r);
      assert rows[i + 1] == r;
      forall j | i + 1 < j < |rows|
        ensures Key(rows[j]) != Key(r)
      {
        assert rows[j] == rows[1..][j - 1];
      }
    } else {
      assert r == rows[0] && Key(rows[0]) !in KeySet(rows[1..]);
      forall j | 0 < j < |rows|
        ensures Key(rows[j]) != Key(r)
      {
        assert rows[j] == rows[1..][j - 1];
      }
    }
  }

  /** No later row has the key of row k. */
  predicate LastOfKey(rows: seq<Row>, k: nat)
    requires k < |rows|
  {
    forall j :: k < j < |rows| ==> Key(rows[j]) != Key(rows[k])
  }

  /** The first row is the last of its key iff its key does not recur in the tail. */
  lemma LastOfKeyHead(rows: seq<Row>)
    requires rows != []
    ensures LastOfKey(rows, 0) <==> Key(rows[0]) !in KeySet(rows[1..])
  {
    var tail := rows[1..];
    if Key(rows[0]) in KeySet(tail) {
      var i :| 0 <= i < |tail| && Key(tail[i]) == Key(rows[0]);
      assert Key(rows[i + 1]) == Key(rows[0]);
    } else {
      forall j | 0 < j < |rows|
        ensures Key(rows[j]) != Key(rows[0])
      {
        assert tail[j - 1] == rows[j];
      }
    }
  }

  /** A later row is the last of its key in the rows iff it is in the tail. */
  lemma LastOfKeyTail(rows: seq<Row>, k: nat)
    requires 0 < k < |rows|
    ensures LastOfKey(rows, k) <==> LastOfKey(rows[1..], k - 1)
  {
    var tail := rows[1..];
    assert tail[k - 1] == rows[k];
    assert forall j :: k - 1 < j < |tail| ==> tail[j] == rows[j + 1];
  }

  /**
   * The survivors are the input rows at the ascending positions that are
   * the last of their key: each such row once, in input order, and no other.
   */
  lemma {:induction false} KeepLastPositions(rows: seq<Row>) returns (idx: seq<nat>)
    ensures AtPositions(KeepLast(rows), rows, idx)
    ensures forall k :: 0 <= k < |rows| ==> (k in idx <==> LastOfKey(rows, k))
  {
    if rows == [] {
      idx := [];
    } else {
      var tail := rows[1..];
      var rest := KeepLastPositions(tail);
      var keep := Key(rows[0]) !in KeySet(tail);
      assert KeepLast(rows) == (if keep then [rows[0]] else []) + KeepLast(tail);
      AtPositionsCons(KeepLast(tail), rows, rest, keep);
      ShiftMembers(rest);
      var shifted := Shift(rest);
      idx := (if keep then [0] else []) + shifted;
      forall k | 0 <= k < |rows|
        ensures k in idx <==> LastOfKey(rows, k)
      {
        if k > 0 {
          LastOfKeyTail(rows, k);
          assert k in idx <==> (k - 1) + 1 in shifted;
        } else {
          LastOfKeyHead(rows);
          assert 0 !in shifted;
        }
      }
    }
  }

  /** remove_duplicates on the stored table; a missing key column is pandas' KeyError. */
  function RemoveDuplicates(t: StoredTable): (r: Result<StoredTable, string>)
    ensures "QandA" !in t.columns ==> r == Err("QandA")
    ensures "QandA" in t.columns && "Project" !in t.columns ==> r == Err("Project")
    ensures r.Ok? ==> r.value.columns == t.columns && r.value.rows == KeepLast(t.rows)
  {
    if "QandA" !in t.columns then Err("QandA")
    else if "Project" !in t.columns then Err("Project")
    else Ok(StoredTable(t.columns, KeepLast(t.rows)))
  }

  // ---------------------------------------------------------------------
  // load_questionnaire_data
  // ---------------------------------------------------------------------

  /** A loaded form: its project, its parsed question/answer table (None: no columns) and its timestamp. */
  datatype Entry = Entry(project: string, qanda: Option<QandAFrame>, timestamp: string)

  /** What loading leaves in the database and what it hands to the page. */
  datatype LoadOutcome = LoadOutcome(stored: StoredTable, loaded: Result<seq<Entry>, string>)

  /** The table written when there is no Project column: one row for the default project. */
  function SeedTable(blankJson: string, now: string): StoredTable
  {
    StoredTable({"Project", "QandA", "Timestamp"}, [Row(DefaultProject, Some(blankJson), now)])
  }

  /** Reading the three columns of a frame (a missing one is a KeyError) and parsing each QandA cell. */
  function ReadEntries(t: StoredTable, readJson: string -> QandAFrame): (r: Result<seq<Entry>, string>)
    ensures r.Ok? <==> {"Project", "QandA", "Timestamp"} <= t.columns
    ensures r.Ok? ==> |r.value| == |t.rows| && forall i :: 0 <= i < |t.rows| ==>
                        r.value[i] == Entry(t.rows[i].project, JsonToFrame(t.rows[i].qanda, readJson), t.rows[i].timestamp)
  {
    if "Project" !in t.columns then Err("Project")
    else if "QandA" !in t.columns then Err("QandA")
    else if "Timestamp" !in t.columns then Err("Timestamp")
    else Ok(seq(|t.rows|, i requires 0 <= i < |t.rows| =>
               Entry(t.rows[i].project, JsonToFrame(t.rows[i].qanda, readJson), t.rows[i].timestamp)))
  }

  /**
   * load_questionnaire_data as written: the seed is written when the
   * Project column is missing, but the columns are then read from the frame
   * loaded before seeding.
   */
  function LoadAsWritten(t: StoredTable, blankJson: string, now: string, readJson: string -> QandAFrame): LoadOutcome
  {
    var stored := if "Project" !in t.columns then SeedTable(blankJson, now) else t;
    LoadOutcome(stored, ReadEntries(t, readJson))
  }

  /** Whenever the seed is written, the load as written fails on the column it has just created. */
  lemma LoadAsWrittenFailsAfterSeeding(t: StoredTable, blankJson: string, now: string, readJson: string -> QandAFrame)
    requires "Project" !in t.columns
    ensures LoadAsWritten(t, blankJson, now, readJson).stored == SeedTable(blankJson, now)
    ensures LoadAsWritten(t, blankJson, now, readJson).loaded == Err("Project")
  {
  }

  /** load_questionnaire_data reading back the table it has just seeded. */
  function Load(t: StoredTable, blankJson: string, now: string, readJson: string -> QandAFrame): LoadOutcome
  {
    var stored := if "Project" !in t.columns then SeedTable(blankJson, now) else t;
    LoadOutcome(stored, ReadEntries(stored, readJson))
  }

  /**
   * The seed is written only when the Project column is missing, the
   * loaded forms are the stored rows, and a table without a Project column
   * loads as the single default form.
   */
  lemma LoadSeedsOnlyWithoutProject(t: StoredTable, blankJson: string, now: string, readJson: string -> QandAFrame)
    ensures "Project" in t.columns ==> Load(t, blankJson, now, readJson).stored == t
    ensures "Project" !in t.columns ==>
              Load(t, blankJson, now, readJson).loaded == Ok([Entry(DefaultProject, Some(readJson(blankJson)), now)])
    ensures Load(t, blankJson, now, readJson).loaded.Err? ==> Load(t, blankJson, now, readJson).loaded.error != "Project"
  {
    if "Project" !in t.columns {
      var e := ReadEntries(SeedTable(blankJson, now), readJson);
      assert e.Ok? && |e.value| == 1;
      assert e.value[0] == Entry(DefaultProject, Some(readJson(blankJson)), now);
      assert e.value == [Entry(DefaultProject, Some(readJson(blankJson)), now)];
    }
  }

  /**
   * The start of the page: remove_duplicates (line 71), then
   * load_questionnaire_data (line 74) on the table it wrote back. An error
   * is the KeyError that stops the script, with the table unchanged.
   */
  function StartPage(t: StoredTable, blankJson: string, now: string, readJson: string -> QandAFrame): Result<LoadOutcome, string>
  {
    match RemoveDuplicates(t)
    case Err(column) => Err(column)
    case Ok(cleaned) => Ok(LoadAsWritten(cleaned, blankJson, now, readJson))
  }

  /**
   * On the page the seed is never written. A table without a Project
   * column stops at the de-duplication. Any other table is de-duplicated
   * and loaded without seeding, and loading then succeeds iff it also has
   * a Timestamp column.
   */
  lemma StartPageNeverSeeds(t: StoredTable, blankJson: string, now: string, readJson: string -> QandAFrame)
    ensures "Project" !in t.columns ==> StartPage(t, blankJson, now, readJson).Err?
    ensures StartPage(t, blankJson, now, readJson).Ok? ==>
              && {"QandA", "Project"} <= t.columns
              && StartPage(t, blankJson, now, readJson).value.stored == StoredTable(t.columns, KeepLast(t.rows))
              && (StartPage(t, blankJson, now, readJson).value.loaded.Ok? <==> "Timestamp" in t.columns)
              && StartPage(t, blankJson, now, readJson).value == Load(StoredTable(t.columns, KeepLast(t.rows)), blankJson, now, readJson)
  {
  }

  /**
   * The evident intent of the start: de-duplicate only a table that has
   * both key columns, then load, seeding a table without a Project column.
   */
  function StartPageIntended(t: StoredTable, blankJson: string, now: string, readJson: string -> QandAFrame): LoadOutcome
  {
    var cleaned := if {"QandA", "Project"} <= t.columns then StoredTable(t.columns, KeepLast(t.rows)) else t;
    Load(cleaned, blankJson, now, readJson)
  }

  /** With that intent a table without a Project column is seeded and opens as the single default form. */
  lemma StartPageIntendedOpensDefault(t: StoredTable, blankJson: string, now: string, readJson: string -> QandAFrame)
    requires "Project" !in t.columns
    ensures StartPageIntended(t, blankJson, now, readJson).stored == SeedTable(blankJson, now)
    ensures StartPageIntended(t, blankJson, now, readJson).loaded == Ok([Entry(DefaultProject, Some(readJson(blankJson)), now)])
  {
    LoadSeedsOnlyWithoutProject(t, blankJson, now, readJson);
  }

  /** The project titles of the loaded forms, `questionnaire_data['Project'].tolist()`. */
  function Titles(entries: seq<Entry>): (r: seq<string>)
    ensures |r| == |entries|
    ensures forall i :: 0 <= i < |entries| ==> r[i] == entries[i].project
  {
    seq(|entries|, i requires 0 <= i < |entries| => entries[i].project)
  }

  // ---------------------------------------------------------------------
  // Choosing a form
  // ---------------------------------------------------------------------

  /** `list.index(x)`: the first position of x. */
  function FirstIndex(xs: seq<string>, x: string): (r: nat)
    requires x in xs
    ensures r < |xs| && xs[r] == x
    ensures forall j :: 0 <= j < r ==> xs[j] != x
  {
    if xs[0] == x then 0 else 1 + FirstIndex(xs[1..], x)
  }

  /** Why the page stops while opening a form. */
  datatype OpenError =
    | TitleNotListed   // `project_title_list.index(project_title)` raises ValueError
    | NoAnswerColumn   // the chosen form's frame has no Answer column: KeyError

  /** The session state once a form is open. */
  datatype Opened = Opened(projects: seq<string>, activeIndex: nat, projectTitle: string, responses: seq<string>)

  /**
   * Opening a form (lines 78-95). The select box gives a title, or None
   * when there is no form at all. The title's first position becomes the
   * active index and the form's Answer column the responses. On the default
   * form (index 0) the title becomes the one typed for a new project.
   */
  function OpenForm(entries: seq<Entry>, chosen: Option<string>, typedTitle: string): (r: Result<Opened, OpenError>)
    ensures r == Err(TitleNotListed) <==> chosen.None? || chosen.value !in Titles(entries)
    ensures r == Err(NoAnswerColumn) <==>
              chosen.Some? && chosen.value in Titles(entries) && entries[FirstIndex(Titles(entries), chosen.value)].qanda.None?
    ensures r.Ok? ==>
              && chosen.Some?
              && r.value.projects == Titles(entries)
              && r.value.activeIndex < |entries|
              && r.value.projects[r.value.activeIndex] == chosen.value
              && (forall j :: 0 <= j < r.value.activeIndex ==> r.value.projects[j] != chosen.value)
              && entries[r.value.activeIndex].qanda.Some?
              && r.value.responses == entries[r.value.activeIndex].qanda.value.answers
              && r.value.projectTitle == (if r.value.activeIndex == 0 then typedTitle else chosen.value)
  {
    var projects := Titles(entries);
    if chosen.None? || chosen.value !in projects then Err(TitleNotListed)
    else
      var i := FirstIndex(projects, chosen.value);
      match entries[i].qanda
      case None => Err(NoAnswerColumn)
      case Some(frame) => Ok(Opened(projects, i, if i == 0 then typedTitle else chosen.value, frame.answers))
  }

  /** With no form at all the page stops at the index lookup. */
  lemma NoFormsStopsPage(chosen: Option<string>, typedTitle: string)
    ensures OpenForm([], chosen, typedTitle) == Err(TitleNotListed)
  {
  }

  /** As written, a form whose stored QandA cell is not a string cannot be opened, although json_to_dataframe guards it. */
  lemma OpenFormFailsOnNonStringCell()
    ensures var entries := [Entry(DefaultProject, Some(QandAFrame(["How?"], [""])), "t"), Entry("Survey", None, "t")];
      OpenForm(entries, Some("Survey"), "") == Err(NoAnswerColumn)
  {
    var entries := [Entry(DefaultProject, Some(QandAFrame(["How?"], [""])), "t"), Entry("Survey", None, "t")];
    assert Titles(entries) == [DefaultProject, "Survey"];
    assert FirstIndex(Titles(entries), "Survey") == 1;
  }

  /**
   * The evident intent of that guard: a form without columns opens with no
   * questions and no answers; every listed title opens, and wherever the
   * page as written opens a form it opens the same one.
   */
  function OpenFormIntended(entries: seq<Entry>, chosen: Option<string>, typedTitle: string): (r: Result<Opened, OpenError>)
    ensures r.Err? <==> chosen.None? || chosen.value !in Titles(entries)
    ensures r.Err? ==> r.error == TitleNotListed
    ensures OpenForm(entries, chosen, typedTitle).Ok? ==> r == OpenForm(entries, chosen, typedTitle)
    ensures r.Ok? ==> r.value.activeIndex < |entries|
    ensures r.Ok? && entries[r.value.activeIndex].qanda.None? ==> r.value.responses == []
  {
    var projects := Titles(entries);
    if chosen.None? || chosen.value !in projects then Err(TitleNotListed)
    else
      var i := FirstIndex(projects, chosen.value);
      var answers := match entries[i].qanda case None => [] case Some(frame) => frame.answers;
      Ok(Opened(projects, i, if i == 0 then typedTitle else chosen.value, answers))
  }

  /** An index label of a pandas Series: the integer positions of a default index, or a string. */
  datatype Label = IntLabel(i: int) | StrLabel(s: string)

  /** `label in series` for a Series of length n with the default index: it tests labels, not values. */
  predicate SeriesHasLabel(n: nat, l: Label)
  {
    l.IntLabel? && 0 <= l.i < n
  }

  /** The new-title test as written: `project_title and project_title not in questionnaire_data['Project']`. */
  predicate TitleAcceptedAsWritten(title: string, projects: seq<string>)
  {
    title != "" && !SeriesHasLabel(|projects|, StrLabel(title))
  }

  /** As written, the test only checks that the title is not empty. */
  lemma TitleAsWrittenOnlyChecksEmpty(title: string, projects: seq<string>)
    ensures TitleAcceptedAsWritten(title, projects) <==> title != ""
  {
  }

  /** As written, the title of an existing form is accepted as a new title. */
  lemma TitleAsWrittenAcceptsExistingTitle()
    ensures var projects := [DefaultProject, "Survey"];
      "Survey" in projects && TitleAcceptedAsWritten("Survey", projects) && !TitleAccepted("Survey", projects)
  {
  }

  /** The intended new-title test: not empty and not the title of an existing form. */
  predicate TitleAccepted(title: string, projects: seq<string>)
  {
    title != "" && title !in projects
  }

  /** The intended test is the test as written plus the check that the title names no existing form. */
  lemma TitleAcceptedIsNew(title: string, projects: seq<string>)
    ensures TitleAccepted(title, projects) <==> TitleAcceptedAsWritten(title, projects) && title !in projects
  {
    TitleAsWrittenOnlyChecksEmpty(title, projects);
  }

  // ---------------------------------------------------------------------
  // Editing answers
  // ---------------------------------------------------------------------

  /** The answers after writing `inputs` over `base` position by position, extending it where it is shorter. */
  function Overlay(base: seq<string>, inputs: seq<string>): (r: seq<string>)
    ensures |r| == if |inputs| < |base| then |base| else |inputs|
    ensures forall i :: 0 <= i < |inputs| ==> r[i] == inputs[i]
    ensures forall i :: |inputs| <= i < |base| ==> r[i] == base[i]
  {
    var n := if |inputs| < |base| then |base| else |inputs|;
    seq(n, i requires 0 <= i < n => if i < |inputs| then inputs[i] else base[i])
  }

  /** When there is one input per stored answer, as on the page, the answers become exactly the inputs. */
  lemma OverlaySameLength(base: seq<string>, inputs: seq<string>)
    requires |base| == |inputs|
    ensures Overlay(base, inputs) == inputs
  {
  }

  /** Overlaying one more input extends the overlay of the shorter list. */
  lemma OverlayStep(base: seq<string>, inputs: seq<string>, x: string)
    ensures var r := Overlay(base, inputs);
      Overlay(base, inputs + [x]) == if |inputs| < |r| then r[|inputs| := x] else r + [x]
  {
  }

  /** How the page answered the last press of "Populate Form". */
  datatype Notice = NoNotice | FormUpdated | InvalidTitle

  /** The editor's session state. */
  class FormSession {
    /** `project_title_list` */
    var projects: seq<string>
    var activeIndex: nat
    var projectTitle: string
    var responses: seq<string>
    var notice: Notice

    /** Opening the page on a form that opens (see OpenForm for where it stops instead). */
    constructor (entries: seq<Entry>, chosen: Option<string>, typedTitle: string)
      requires OpenForm(entries, chosen, typedTitle).Ok?
      ensures projects == Titles(entries)
      ensures activeIndex == FirstIndex(projects, chosen.value)
      ensures entries[activeIndex].qanda.Some? && responses == entries[activeIndex].qanda.value.answers
      ensures projectTitle == if activeIndex == 0 then typedTitle else chosen.value
      ensures notice == NoNotice
    {
      var o := OpenForm(entries, chosen, typedTitle).value;
      projects := o.projects;
      activeIndex := o.activeIndex;
      projectTitle := o.projectTitle;
      responses := o.responses;
      notice := NoNotice;
    }

    /** The answer loop: each input overwrites its position, or is appended past the end; nothing else changes. */
    method UpdateResponses(inputs: seq<string>)
      modifies this
      ensures responses == Overlay(old(responses), inputs)
      ensures projects == old(projects) && activeIndex == old(activeIndex)
      ensures projectTitle == old(projectTitle) && notice == old(notice)
    {
      ghost var base := responses;
      for index := 0 to |inputs|
        invariant responses == Overlay(base, inputs[..index])
        invariant projects == old(projects) && activeIndex == old(activeIndex)
        invariant projectTitle == old(projectTitle) && notice == old(notice)
      {
        OverlayStep(base, inputs[..index], inputs[index]);
        assert inputs[..index + 1] == inputs[..index] + [inputs[index]];
        if index < |responses| {
          responses := responses[index := inputs[index]];
        } else {
          responses := responses + [inputs[index]];
        }
      }
      assert inputs[..|inputs|] == inputs;
    }

    /**
     * "Populate Form" as the page runs it: on the default form the title
     * test of line 113 only checks that the title is not empty (the `in`
     * looks at the Series' index labels), so any non-empty title, even that
     * of an existing form, moves the active index past the existing forms.
     * On any other form only the notice changes.
     */
    method Populate()
      modifies this
      ensures projects == old(projects) && projectTitle == old(projectTitle) && responses == old(responses)
      ensures old(activeIndex) == 0 && projectTitle != "" ==> activeIndex == |projects| && notice == FormUpdated
      ensures old(activeIndex) == 0 && projectTitle == "" ==> activeIndex == 0 && notice == InvalidTitle
      ensures old(activeIndex) != 0 ==> activeIndex == old(activeIndex) && notice == FormUpdated
    {
      TitleAsWrittenOnlyChecksEmpty(projectTitle, projects);
      if activeIndex == 0 {
        if TitleAcceptedAsWritten(projectTitle, projects) {
          activeIndex := |projects|;
          notice := FormUpdated;
        } else {
          notice := InvalidTitle;
        }
      } else {
        notice := FormUpdated;
      }
    }

    /**
     * "Populate Form" with the intended title test: a title is accepted
     * only when it is not empty and names no existing form.
     */
    method PopulateIntended()
      modifies this
      ensures projects == old(projects) && projectTitle == old(projectTitle) && responses == old(responses)
      ensures old(activeIndex) == 0 && projectTitle != "" && projectTitle !in projects ==>
                activeIndex == |projects| && notice == FormUpdated
      ensures old(activeIndex) == 0 && (projectTitle == "" || projectTitle in projects) ==>
                activeIndex == 0 && notice == InvalidTitle
      ensures old(activeIndex) != 0 ==> activeIndex == old(activeIndex) && notice == FormUpdated
    {
      if activeIndex == 0 {
        if TitleAccepted(projectTitle, projects) {
          activeIndex := |projects|;
          notice := FormUpdated;
        } else {
          notice := InvalidTitle;
        }
      } else {
        notice := FormUpdated;
      }
    }
  }

  // ---------------------------------------------------------------------
  // Saving
  // ---------------------------------------------------------------------

  /** What "Save" did to the stored rows. */
  datatype SaveOutcome =
    | NotSaved                     // the default project is never saved
    | Updated(rows: seq<Row>)      // the project existed: its rows got the new QandA and Timestamp
    | Inserted(rows: seq<Row>)     // the project was new: `new_row` was inserted

  /** A stored row belongs to the project. */
  predicate HasProject(rows: seq<Row>, title: string)
  {
    exists i :: 0 <= i < |rows| && rows[i].project == title
  }

  /**
   * The save guard and the upsert: nothing is written for the default
   * project; otherwise every row of an existing project gets the new QandA
   * and Timestamp and all other rows stay, or the new row is appended.
   */
  function Save(rows: seq<Row>, title: string, qandaJson: string, timestamp: string): (r: SaveOutcome)
    ensures r.NotSaved? <==> title == DefaultProject
    ensures r.Updated? <==> title != DefaultProject && HasProject(rows, title)
    ensures r.Updated? ==> |r.rows| == |rows|
    ensures r.Updated? ==> forall i :: 0 <= i < |rows| ==>
              r.rows[i] == if rows[i].project == title then Row(title, Some(qandaJson), timestamp) else rows[i]
    ensures r.Inserted? ==> r.rows == rows + [Row(title, Some(qandaJson), timestamp)]
  {
    if title == DefaultProject then NotSaved
    else if HasProject(rows, title) then
      Updated(seq(|rows|, i requires 0 <= i < |rows| =>
                    if rows[i].project == title then Row(title, Some(qandaJson), timestamp) else rows[i]))
    else Inserted(rows + [Row(title, Some(qandaJson), timestamp)])
  }

  /**
   * After a save the project has a row carrying the new form, every row of
   * the project carries it, and rows of other projects are as they were.
   */
  lemma SaveStoresForm(rows: seq<Row>, title: string, qandaJson: string, timestamp: string)
    requires title != DefaultProject
    ensures var r := Save(rows, title, qandaJson, timestamp);
      && (exists i :: 0 <= i < |r.rows| && r.rows[i] == Row(title, Some(qandaJson), timestamp))
      && (forall i :: 0 <= i < |r.rows| && r.rows[i].project == title ==> r.rows[i].qanda == Some(qandaJson))
      && (forall x :: x in rows && x.project != title ==> x in r.rows)
      && (forall x :: x in r.rows && x.project != title ==> x in rows)
  {
    var r := Save(rows, title, qandaJson, timestamp);
    var saved := Row(title, Some(qandaJson), timestamp);
    if r.Updated? {
      var k :| 0 <= k < |rows| && rows[k].project == title;
      assert r.rows[k] == saved;
      forall x | x in rows && x.project != title
        ensures x in r.rows
      {
        var i :| 0 <= i < |rows| && rows[i] == x;
        assert r.rows[i] == x;
      }
    } else {
      assert r.rows[|rows|] == saved;
      forall x | x in r.rows && x.project != title
        ensures x in rows
      {
        var i :| 0 <= i < |r.rows| && r.rows[i] == x;
        assert i < |rows|;
      }
    }
  }
}
