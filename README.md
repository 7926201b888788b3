# Form-building and table-wrangling scripts, modelled in Dafny

This project models the bookkeeping logic of three interactive data scripts.

- **Database browse-and-delete page** (`streamlit_search.py`, module `TableDelete`, file `table_delete.dfy`).
  The user ticks rows of a table by their `Project` value and unlocks the page with a password.
  The selected projects are then deleted with one parameterised `DELETE` statement.
  The model builds that statement as the code does: NULL and non-NULL selections are split, placeholders `:project0 … :project{k-1}` and a parameter map are created, and an `IN` part and an `IS NULL` part are joined by `OR`.
  The model also gives the WHERE clause its SQL meaning, under three-valued logic.
  It proves that the statement deletes a row exactly when the row's Project was selected, with None standing for NULL.
- **Table-join tool** (`remkfms.py`, module `TableJoin`, file `table_join.dfy`).
  Uploaded files are keyed into an insertion-ordered registry: a CSV file by its file name, each Excel sheet as `"file - sheet"`.
  The user picks a chain of tables and a join column for each consecutive pair.
  The merges are then folded left to right.
  The merge and the file readers are function parameters.
- **Questionnaire editor** (`remakeMSForms.py`, module `Questionnaire`, file `questionnaire.dfy`).
  Forms are stored one row per project.
  The model covers keep-last de-duplication on `(QandA, Project)`, loading (whose default-seed branch the page never reaches, because de-duplication fails first on such a table), and opening the chosen form with its two ways of stopping.
  It also covers the answer loop, which overwrites or appends in place, the new-title rule, and the save guard with its update-or-insert step.

Shared helpers are in `common.dfy` (module `Common`): `Option`, `Result`, Python's `str.join`, `str(n)` for naturals with an injectivity proof, `str.endswith`, a subsequence predicate, and `AtPositions`, which says a result is a list's elements at strictly increasing positions.

The database is a value: a list of Project cells for the delete page, and a `StoredTable` for the questionnaire.
UI input (checkboxes, text boxes, select boxes, buttons, the slider) comes in as parameters.
Session state that the scripts keep in `st.session_state` is explicit: the `DeletePage` and `FormSession` classes.
The clock, JSON parsing, file reading and pandas' merge are parameters too.

## Model

| member | source | states |
|---|---|---|
| `TableDelete.NoneSelected` | streamlit_search.py:35 | every entry of the NULL group is None |
| `TableDelete.NonNoneSelected` | streamlit_search.py:36 | every name of the non-NULL group was selected, and the group is no longer than the selection |
| `TableDelete.SelectionPartitionCounts` | streamlit_search.py:35-36 | the NULL group and the non-NULL group together hold every selected entry exactly as often as the selection does |
| `TableDelete.SelectionPartitionOrder` | streamlit_search.py:35-36 | each group is a subsequence of the selection (original order kept) |
| `TableDelete.SelectionPartitionMembers` | streamlit_search.py:35-36 | the NULL group is non-empty iff None was selected; a name is in the non-NULL group iff it was selected |
| `TableDelete.ParamNameInjective` | streamlit_search.py:43 | distinct indices give distinct `project{i}` keys, so no parameter overwrites another |
| `TableDelete.BoundParams` | streamlit_search.py:43 | the parameter map has exactly the keys `project0..project{k-1}`, and `project{i}` is bound to the i-th non-NULL name |
| `TableDelete.PlannedSql` | streamlit_search.py:48 | the query text of a planned statement is `DELETE FROM <table> WHERE ` followed by the planned clause |
| `TableDelete.WhereClause` | streamlit_search.py:48 | the `' OR '`-joined clause is non-empty whenever there is at least one part |
| `Common.Join` | streamlit_search.py:41-48 | `str.join`: the result starts with the first part, the separator follows it when there is a second, and its length is the parts' total length plus one separator between each pair of neighbours |
| `TableDelete.PlannedWhereText` | streamlit_search.py:40-48 | the clause is `"Project" IN (:project0, …, :project{k-1})`, then ` OR `, then `"Project" IS NULL`; each part is present only when needed, and the `IN` part comes first |
| `TableDelete.PlanMatchesNull` | streamlit_search.py:40-46 | a NULL Project satisfies the WHERE clause iff None was selected (`IN` on NULL is unknown) |
| `TableDelete.PlanMatchesName` | streamlit_search.py:39-46 | a named Project satisfies the WHERE clause iff that name was selected |
| `TableDelete.PlanMatchesSelection` | streamlit_search.py:35-46 | the planned statement deletes a row iff its Project cell is among the selected cells |
| `TableDelete.PlanDelete` | streamlit_search.py:29-48 | no statement for an empty selection. Otherwise: the `IN` part iff some name was selected, the `IS NULL` part iff None was selected and after `IN`, parameter keys exactly `project0..project{k-1}` with `project{i}` bound to the i-th name, a non-empty WHERE clause, the query text `DELETE FROM <table> WHERE <that clause>`, and it deletes exactly the selected cells |
| `TableDelete.UnselectedProperties` | streamlit_search.py:55-57 | the rows left keep table order, and a Project value is left iff it is in the table and was not selected (`UnselectedPositions` gives each row once) |
| `TableDelete.UnselectedPositions` | streamlit_search.py:55-57 | the rows left are the table's rows at the ascending positions of the unselected rows: each once, in table order, repeated Project values included, and no other |
| `TableDelete.SurvivorsAreUnselected` | streamlit_search.py:55-57 | executing a statement that deletes exactly the selected cells leaves exactly the unselected rows |
| `TableDelete.DeleteRows` | streamlit_search.py:25-63 | an empty selection returns 0 and sends nothing. Otherwise the planned statement is sent: its conditions, its `project{i}` bindings and its query text. A database error gives 0 and an unchanged table. Without an error, exactly the selected rows are removed and their number is returned |
| `TableDelete.DisplayName` | streamlit_search.py:95-98 | a NULL/NaN Project is shown as `None (NULL)`, any other by its name |
| `TableDelete.CheckedRowsInOrder` | streamlit_search.py:100-101 | the collected cells are a subsequence of the rows (row order) |
| `TableDelete.CheckedRowsPositions` | streamlit_search.py:92-101 | the collected cells are the rows' cells at the ascending positions of the ticked rows: each ticked row once, in row order, repeated Project values included, and no other |
| `TableDelete.CheckedRowsCount` | streamlit_search.py:100-101 | one cell is collected per ticked row |
| `TableDelete.CheckedRowsMembers` | streamlit_search.py:95-101 | a ticked row's cell is collected (a NULL row as None), and every collected cell is that of a ticked row |
| `TableDelete.CollectSelection` | streamlit_search.py:92-101 | every row gets the label `Select row {index+1}: {display}`; the ticked rows' cells are appended in row order |
| `TableDelete.DeletePage.constructor` | streamlit_search.py:75 | the page starts locked |
| `TableDelete.DeletePage.CheckPassword` | streamlit_search.py:66-70 | `password_entered` becomes true iff the password equals the configured one, false otherwise |
| `TableDelete.DeleteAction` | streamlit_search.py:104-121 | the delete runs iff unlocked, button pressed and selection non-empty. A locked page shows only the hint. A press with an empty selection reports the error |
| `TableJoin.Put` | remkfms.py:43 | dict assignment: the key holds the new table, other keys keep theirs, an existing key keeps its place in key order, a new key goes to the end, and key order stays consistent |
| `TableJoin.SheetKeyInjective` | remkfms.py:47 | different sheet names of one file give different keys |
| `TableJoin.PutSheetsValid` | remkfms.py:46-47 | adding a workbook's sheets keeps key order consistent with the tables |
| `TableJoin.RegistryValid` | remkfms.py:37-47 | after any sequence of uploads the key order lists every registered key once and nothing else |
| `TableJoin.CsvUploadAddsOneEntry` | remkfms.py:40-43 | a `.csv` upload adds or replaces exactly one entry, keyed by the file name |
| `TableJoin.OtherUploadAddsNothing` | remkfms.py:40-47 | a file that is neither `.csv` nor `.xlsx` leaves the registry unchanged |
| `TableJoin.PutSheetsKeys` | remkfms.py:46-47 | the registry's keys grow by exactly the `"file - sheet"` keys |
| `TableJoin.PutSheetsKeepsOthers` | remkfms.py:46-47 | entries whose key is no sheet key are untouched |
| `TableJoin.PutSheetsLastWins` | remkfms.py:46-47 | each sheet key holds the last sheet of that name |
| `TableJoin.XlsxIsNotCsv` | remkfms.py:40-44 | the `.csv` and `.xlsx` branches are exclusive |
| `TableJoin.XlsxUploadAddsSheets` | remkfms.py:44-47 | an `.xlsx` upload adds one entry per sheet keyed `"{file} - {sheet}"` holding that sheet, and no other key |
| `TableJoin.LaterUploadOverwrites` | remkfms.py:43 | a later `.csv` upload with an existing key overwrites the table and keeps the key's position |
| `TableJoin.BuildRegistry` | remkfms.py:37-47 | the upload loop (with its inner sheet loop) yields the registry of the uploads in order, with consistent key order |
| `TableJoin.MappingsAreAcceptedPairs` | remkfms.py:65-81 | the mappings correspond one-to-one, in increasing order, to the consecutive pairs `(selected[i], selected[i+1])` whose tables are both registered and whose two columns are both chosen. There are at most `num_tables - 1` of them |
| `TableJoin.MappingsResolve` | remkfms.py:70-81 | every mapping names two registered tables and two non-empty columns |
| `TableJoin.BuildMappings` | remkfms.py:65-83 | the pair loop yields exactly those mappings, at most `num_tables - 1`, all resolvable |
| `TableJoin.JoinChainReadsFirstLeftAndRights` | remkfms.py:101-112 | the fold reads only the first mapping's left table and every mapping's right table |
| `TableJoin.PreJoinDimensionsLayout` | remkfms.py:99-107 | two dimension entries per mapping, in order: positions 2j and 2j+1 are mapping j's left and right tables with their shapes |
| `TableJoin.PerformJoins` | remkfms.py:95-112 | no mappings, no join. Otherwise the first mapping merges its two tables and each later one merges the running result with its right table. The dimensions are recorded as above |
| `TableJoin.RunJoinTool` | remkfms.py:37-133 | joining is offered only with more than one registered table. Pressing the button with no mapping reports that no valid columns were chosen. A join result is the left fold over exactly the built mappings |
| `Questionnaire.JsonToFrame` | remakeMSForms.py:7-10 | a non-string QandA cell yields `pd.DataFrame()`, a frame without columns (None); a string is parsed |
| `Questionnaire.KeepLastSameKeys` | remakeMSForms.py:52 | de-duplication keeps every `(QandA, Project)` key and adds none |
| `Questionnaire.KeepLastDistinctKeys` | remakeMSForms.py:52 | no two surviving rows share a key |
| `Questionnaire.KeepLastInOrder` | remakeMSForms.py:52 | survivors keep their relative order |
| `Questionnaire.KeepLastPositions` | remakeMSForms.py:52 | the survivors are the rows at the ascending positions that are the last of their `(QandA, Project)` key: each such row once, in table order, even when whole rows repeat, and no other |
| `Questionnaire.KeepLastKeepsLastOccurrences` | remakeMSForms.py:52 | the last row of each key survives |
| `Questionnaire.KeepLastOnlyLastOccurrences` | remakeMSForms.py:52 | every survivor is the last row of its key |
| `Questionnaire.RemoveDuplicates` | remakeMSForms.py:50-53 | a table missing `QandA` or `Project` fails on that column; otherwise the stored rows become the keep-last de-duplication |
| `Questionnaire.ReadEntries` | remakeMSForms.py:26-32 | reading succeeds iff the three columns exist, giving one entry per row with its QandA cell parsed by `json_to_dataframe` |
| `Questionnaire.LoadAsWrittenFailsAfterSeeding` | remakeMSForms.py:15-33 | as written, whenever the seed row is written the load fails on the `Project` column it has just created |
| `Questionnaire.LoadSeedsOnlyWithoutProject` | remakeMSForms.py:15-33 | the load corrected to read back what it stored writes the seed only when `Project` is missing, loads such a table as the single default form, and never fails on `Project` |
| `Questionnaire.StartPageNeverSeeds` | remakeMSForms.py:50-74 | in the page's order (de-duplicate, then load) a table without `Project` stops at the de-duplication, so the seed is never written. Any other table is de-duplicated and loaded unseeded, and the load as written agrees with the corrected one there |
| `Questionnaire.StartPageIntendedOpensDefault` | remakeMSForms.py:18-24 | if de-duplication skipped a table without its key columns and the load read back the seed, such a table would be seeded and open as the single default form |
| `Questionnaire.Titles` | remakeMSForms.py:82 | the title list is the loaded forms' projects, position by position |
| `Questionnaire.FirstIndex` | remakeMSForms.py:82-83 | `active_index` is the first position of the selected title |
| `Questionnaire.OpenForm` | remakeMSForms.py:78-95 | opening stops with ValueError iff the select box gave no title or one not listed, and with KeyError iff the chosen form's frame has no columns. Otherwise the active index is the title's first position, the responses are that form's answers, and on the default form (index 0) the title is the typed one |
| `Questionnaire.NoFormsStopsPage` | remakeMSForms.py:78-83 | with no stored form the select box gives None and `list.index` stops the page |
| `Questionnaire.OpenFormFailsOnNonStringCell` | remakeMSForms.py:87-88 | a form whose QandA cell is not a string cannot be opened, although `json_to_dataframe` returns a frame for it |
| `Questionnaire.OpenFormIntended` | remakeMSForms.py:7-10 | with the guard's evident intent every listed title opens, a frame without columns giving no answers, and the result agrees with the page as written wherever that one opens |
| `Questionnaire.TitleAsWrittenOnlyChecksEmpty` | remakeMSForms.py:113 | as written, the `not in` test on the Series checks index labels, so a title is accepted iff it is non-empty |
| `Questionnaire.TitleAsWrittenAcceptsExistingTitle` | remakeMSForms.py:113 | as written, the title of an existing form is accepted as a new title |
| `Questionnaire.TitleAcceptedIsNew` | remakeMSForms.py:113 | the intended test is the test as written plus a check that the title names no existing form |
| `Questionnaire.Overlay` | remakeMSForms.py:98-107 | after the answer loop, position i holds the i-th input, later stored answers are unchanged, and the length is the larger of the two |
| `Questionnaire.OverlaySameLength` | remakeMSForms.py:88-107 | with one input per stored answer, as on the page, the answers become exactly the inputs |
| `Questionnaire.OverlayStep` | remakeMSForms.py:104-107 | one more input overwrites its position when it exists, else appends |
| `Questionnaire.FormSession.constructor` | remakeMSForms.py:78-95 | for a form that opens (`OpenForm` gives the two ways it stops instead): the active index is the first position of the chosen title, and the responses are that form's answers. On the default form (index 0) the title is the newly typed one |
| `Questionnaire.FormSession.UpdateResponses` | remakeMSForms.py:98-107 | the answer loop overwrites or appends in place. Afterwards `responses[i]` is the i-th input and nothing else changes |
| `Questionnaire.FormSession.Populate` | remakeMSForms.py:110-121 | on the default form any non-empty title, the title of an existing form included, moves the active index to `len(project_title_list)` with "Form Updated". An empty one leaves the index with a warning. On other forms only the notice changes |
| `Questionnaire.FormSession.PopulateIntended` | remakeMSForms.py:110-121 | the same with the intended title test: an existing form's title is refused like an empty one |
| `Questionnaire.Save` | remakeMSForms.py:144-170 | the default project is never saved. An existing project has every one of its rows updated (QandA and Timestamp) and all other rows kept. A new project gets `new_row` appended |
| `Questionnaire.SaveStoresForm` | remakeMSForms.py:149-165 | after a save a row of the project carries the new form, every row of the project carries it, and other projects' rows are as before |

## Findings

| source | as written | input that shows it | evidently intended | confidence | as-written member | corrected member |
|---|---|---|---|---|---|---|
| remakeMSForms.py:18-27 | the seed branch cannot help. `remove_duplicates()` (line 71, `drop_duplicates` at line 52) runs first and raises KeyError on a table without Project. Called on its own, the load writes the seed and then reads `sql_data['Project']` from the frame loaded before seeding, and raises KeyError too | a stored table with columns QandA and Timestamp but no Project: the page stops at line 52 | a table without Project is seeded and the page opens on the default form. That needs the de-duplication to skip the table and the load to read back the seed | medium, not executed | `Questionnaire.StartPageNeverSeeds` | `Questionnaire.StartPageIntendedOpensDefault` |
| remakeMSForms.py:113 | `project_title not in questionnaire_data['Project']` tests the Series' index labels (0..n-1), never its values | forms `["New Project (Default)", "Survey"]` and the new title `"Survey"`: "Form Updated" is shown and the active index moves past the forms, instead of the warning. Only the notice and an index that the next rerun recomputes (line 84) are affected. Save (lines 144-165) uses the typed title either way | refuse a title that names an existing form | high, not executed | `Questionnaire.TitleAsWrittenAcceptsExistingTitle` | `Questionnaire.FormSession.PopulateIntended` |
| remakeMSForms.py:88 | `json_to_dataframe` turns a non-string cell into `pd.DataFrame()`, and line 88 then reads its `'Answer'` column, which raises KeyError | a stored form whose QandA cell is NULL, chosen in the select box | open that form with no questions and no answers | medium, not executed | `Questionnaire.OpenFormFailsOnNonStringCell` | `Questionnaire.OpenFormIntended` |

`FormSession.Populate` and `FormSession.constructor` model the page as written. `FormSession.PopulateIntended`, `Questionnaire.Load`, `Questionnaire.StartPageIntended` and `Questionnaire.OpenFormIntended` are the corrected versions.

## Left out

- Rendering: titles, markdown/HTML styling, expanders, `st.write`/`st.success`/`st.error` messages, data-frame display and the CSV download button. These are UI only.
- Database access: engine creation, the connection string and credentials, listing table names, `fetch_table_rows`/`read_sql`, `to_sql`, commits and transactions. The tables are values in the model. On the delete page a database error is the `dbError` flag, and the deleted-row count is computed from the abstract rows.
- Questionnaire saving: the exception handler around save (database errors) is not modelled. The "not in the correct format" branch is not modelled either: `new_row` is always a dict, so that branch cannot be taken.
- pandas internals: `read_csv`, `ExcelFile.parse`, `read_json`/`to_json` with `orient='split'`, `to_csv` encoding and the semantics of `pd.merge`. The merge and the readers are function parameters. A table is seen only through its columns and row count (enough for `shape`).
- `display_dimensions` and `convert_df_to_csv` are thin wrappers around display and serialisation.
- `dataframe_to_json` and `reset_session_state` are defined but never called.
- `json_to_dataframe` is defined twice with the same body, and is modelled once.
- `pd.Timestamp.now()` and its formatting are a `now`/`timestamp` parameter.
- Page reruns are not modelled: each method models one pass of the script. Between reruns the script recomputes `active_index` from the select box (line 84), so the index set by "Populate Form" does not survive a rerun.
- `FormSession.UpdateResponses`: in the script, `responses` is the Answer column of the selected form's frame, so a write also changes that frame. That aliasing is not modelled. `Series.append` returns a new Series rather than extending in place. The model appends, as the loop intends. The append branch cannot be reached on the page, because there is one input per stored answer (`OverlaySameLength`).
- The question/answer table shown before saving (`test_df`) and its JSON text are reduced to the `qandaJson` parameter of `Save`.
- In the questionnaire, Project cells are treated as non-NULL strings. A parsed QandA string is assumed to give a frame with Question and Answer columns (`readJson` returns one).
- `load_csv` and `load_excel` return None or `{}` only for a missing file. An uploaded file is never missing, so those paths are not modelled.
- `TableJoin.BuildMappings`: the select boxes restrict the chosen tables to registry keys and the chosen columns to `''` or a column of that table. The model accepts any strings, which covers every value the select boxes can produce.
- `FormSession.constructor` is defined only for a form that opens. The two ways opening stops the script (ValueError at line 83, KeyError at line 88) are stated by `OpenForm`, and a stopped script has no session to model.
- `TableJoin.JoinChain`: the merge parameter is total, so every chain of mappings gives a joined table. In pandas a join can fail in two ways, and the model does not capture either. First, from the second join on, the running result is joined on `left_col`, a column of `selected[j]` (remkfms.py:78, remkfms.py:110-112). When the pair before was skipped, `selected[j]` was never merged in, so pandas raises KeyError or joins on another table's column of the same name. Second, an earlier merge can rename a column with an `_x`/`_y` suffix, which fails the same way. `JoinChainReadsFirstLeftAndRights` states that later left tables are never read.
- Checkbox and widget keys (`row_{index}`, `answer_{index}`, …) are not modelled.
- The multi-section page builder (parallel section lists, section types, page assembly) is not part of this model: its code is not among these three scripts.
