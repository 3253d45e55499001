# Classroom attendance tracker — a Dafny model

This project models the in-memory core of a classroom attendance tracker, a React application in
which teachers keep classes, import students from a CSV file and mark each student present or absent
per class and day.

- **The attendance store** (`src/context/AppContext.tsx`) keeps three collections: classes,
  students and per-day attendance records. An attendance record is identified by
  `(classId, date)` and holds a sparse map from student id to a boolean.
  - `Store.AttendanceStore` is a class with those three sequence fields, and each store operation
    is a method on it.
  - Every operation except `addClass` passes an updater to its setter (`setAttendance(prev => ...)`),
    and that updater is a pure function. `addClass` sets the new list itself
    (`src/context/AppContext.tsx:52`), and its method states that list outright.
  - Lemmas prove what the updaters promise, such as:
    - toggling negates one entry and leaves everything else as it was;
    - deleting a class leaves no student or record of that class;
    - every operation keeps at most one record per `(classId, date)`, and a store read back with
      unique ids and record keys starts out that way.
- **The presence default** (`src/pages/ClassPage.tsx`): no record, or no entry for a student,
  reads as present; only an explicit `false` reads as absent. `ClassView` proves that a toggle flips
  exactly what the page shows for that student, class and date, and nothing else.
- **The class tiles** (`src/pages/HomePage.tsx`): the student count per class, and the ordered
  if/else-if chain that picks a tile colour from the class name.
- **The settings page** (`src/pages/SettingsPage.tsx`):
  - the selection of students for bulk deletion (a JavaScript `Set`, modelled as a sequence
    without duplicates in insertion order);
  - bulk deletion;
  - the CSV import of `handleFileUpload`. The file is cut into non-blank lines. The first twenty
    lines are searched for a header whose column caption names the students, trying `;`, `,` and
    tab in that order. One name is then read from each data row.

  `CsvImport.ParseCsv` states the import as a function. The methods `ScanForHeader`,
  `TrySeparators`, `ReadNames` and `ImportLines` carry the source's loops and are proved equal to it.

Modules:
- `Text`: JavaScript string operations: `trim`, ASCII case mapping, `includes`, one-character
  `split`, and `isNaN(Number(s))` as the `StringNumericLiteral` grammar.
- `Seqs`: `filter`, `findIndex`, and a loop that pushes zero or more values per element.
- `Domain`: the entities and the record lookup.
- `Store`, `ClassView`, `Home`, `CsvImport` and `Settings`: the parts listed above.
- `CsvExamples`: two small files worked through the whole import by proof, from their text to the names.

What the store's code does, and therefore what the model does:
- The store's interface (`src/context/AppContext.tsx:4-15`) has ten members. Its state is kept
  only in browser storage (`src/context/AppContext.tsx:20-45`). It has no remote write, no rollback
  of a failed write, no loading flag and no operation that renames a class.
- `addStudentsFromCSV` (`src/context/AppContext.tsx:55-62`) appends one student per name. It drops
  no duplicate, whether the duplicate is within the file or already in the class.
- `addClass` (`src/context/AppContext.tsx:47-53`) stores the name exactly as given. The settings
  page trims it before the call.
- The settings page also destructures `updateClass` and `loading` from the store
  (`src/pages/SettingsPage.tsx:6`). The interface above provides neither, so both are undefined
  there: the loading branch never shows and nothing in the model renames a class.

## Model

| member | source | states |
|---|---|---|
| Store.AttendanceStore.constructor | src/context/AppContext.tsx:20-33 | the store starts from the three collections read back from storage, and satisfies its invariant when they have unique ids and record keys |
| Store.AttendanceStore.AddClass | src/context/AppContext.tsx:47-53 | exactly one class `(id, name)` is appended, with the name untrimmed; the other collections are unchanged; a fresh id keeps class ids unique |
| Store.NewStudents | src/context/AppContext.tsx:56-60 | one student per name, in input order, each with the trimmed name, the class and its own id |
| Store.AttendanceStore.AddStudentsFromCsv | src/context/AppContext.tsx:55-62 | the new students are appended after the existing ones, with no deduplication; fresh distinct ids keep student ids unique |
| Store.AppendFreshStudents | src/context/AppContext.tsx:55-62 | appending students with fresh, pairwise distinct ids keeps every student id distinct |
| Store.ToggleExisting | src/context/AppContext.tsx:66-81 | with a record for `(classId, date)`, only the student's entry in the first such record changes: it becomes `!(entry ?? true)`, the key set gains the student, every other key, record, date and class is unchanged |
| Store.ToggleMissing | src/context/AppContext.tsx:82-90 | without such a record, exactly one record `{date, classId, {studentId: false}}` is appended at the end |
| Store.Toggled | src/context/AppContext.tsx:64-92 | the toggle never removes a record and adds at most one, and every existing record keeps its `(classId, date)` key; its exact effect is stated by Store.ToggleExisting and Store.ToggleMissing |
| Store.TogglePreservesUniqueKeys | src/context/AppContext.tsx:64-92 | at most one record per `(classId, date)` survives a toggle; the list grows by one exactly when no record existed |
| Store.ToggleTwice | src/context/AppContext.tsx:72-78 | two toggles restore the entry read as `?? true`: an explicit entry returns as it was, and a missing entry, or a missing record, returns as an explicit `true` |
| Store.ToggleTwiceIsIdentity | src/context/AppContext.tsx:72-78 | when the student already had an explicit entry, two toggles give back the identical list |
| Store.AttendanceStore.ToggleAttendance | src/context/AppContext.tsx:64-92 | the attendance becomes the toggled list, the other collections stay, and unique record keys are preserved |
| Domain.FindRecordIndex | src/context/AppContext.tsx:66 | `findIndex`: the first record matching class and date, or none when no record matches |
| Domain.FindRecord | src/context/AppContext.tsx:94-96 | `find`: no result exactly when no record matches; otherwise a matching record with no match before it |
| Domain.StatusOrPresent | src/context/AppContext.tsx:72 | `records[studentId] ?? true`: a missing key reads as present, and the status is false exactly for an explicit `false` |
| Domain.FindRecordOfUnique | src/context/AppContext.tsx:94-96 | with unique keys, looking up a record's own class and date finds that record |
| Domain.FirstMatchIsFound | src/context/AppContext.tsx:66 | a matching position with no earlier match is what the lookup returns |
| Domain.FindRecordIndexSameKeys | src/context/AppContext.tsx:66 | the lookup depends only on each record's `(classId, date)` |
| Domain.FindRecordIndexAppend | src/context/AppContext.tsx:83-89 | appending a record does not change the lookup of a key that was already present, nor of a key the new record lacks |
| Store.ClassesWithout | src/context/AppContext.tsx:99 | exactly the classes with another id survive, in their original order, with ids still unique |
| Store.StudentsOutside | src/context/AppContext.tsx:101 | exactly the students of other classes survive, in order, so no student refers to the deleted class |
| Store.RecordsOutside | src/context/AppContext.tsx:103 | exactly the records of other classes survive, in order, with keys still unique |
| Store.AttendanceStore.DeleteClass | src/context/AppContext.tsx:98-104 | class, students and records of the class all go in one step, and the store invariant is kept |
| Store.StudentsWithout | src/context/AppContext.tsx:107 | exactly the listed students are removed, the rest keep their order and their unique ids |
| Store.WithoutKeys | src/context/AppContext.tsx:109-113 | every record stays, with its position, date and class, even if its map becomes empty; exactly the listed keys leave each map; every other value is kept |
| Store.WithoutKeysPreservesUniqueKeys | src/context/AppContext.tsx:109-124 | removing keys keeps at most one record per `(classId, date)` |
| Store.DeleteKeys | src/context/AppContext.tsx:121-122 | the `forEach` of `delete` removes exactly the listed keys from the copied map |
| Store.AttendanceStore.DeleteStudent | src/context/AppContext.tsx:106-114 | the student goes, and so does their key in every record; classes stay; the invariant is kept |
| Store.AttendanceStore.DeleteStudents | src/context/AppContext.tsx:116-125 | the listed students go, and their keys leave every record, key by key; classes stay; the invariant is kept |
| Store.DeleteOneIsDeleteStudent | src/context/AppContext.tsx:106-125 | `deleteStudents([id])` has the same effect as `deleteStudent(id)` |
| ClassView.GetStatus | src/pages/ClassPage.tsx:20-25 | no record means present; a student reads absent exactly when the record holds an explicit `false` |
| ClassView.Shown | src/pages/ClassPage.tsx:14-25 | with no record of that class and date the student shows present; a student shows absent only when some record of that class and date holds an explicit `false` for them |
| ClassView.GetStatusIsStoredStatus | src/pages/ClassPage.tsx:23-24 | the page's `status !== false` agrees with the store's `status ?? true` on every record |
| ClassView.ExplicitPresentIsDefault | src/pages/ClassPage.tsx:24 | an explicit `true` reads like a missing key and like a missing record |
| ClassView.ToggleFlipsShownStatus | src/pages/ClassPage.tsx:14-25 | a toggle flips what the page shows for that class, date and student |
| ClassView.ToggleKeepsOtherShownStatus | src/pages/ClassPage.tsx:14-25 | a toggle leaves what the page shows for any other class, date or student unchanged |
| ClassView.ToggleTwiceRestoresShownStatus | src/pages/ClassPage.tsx:14-25 | two toggles of the same triple restore what the page shows everywhere |
| ClassView.DeletedStudentsReadPresent | src/pages/ClassPage.tsx:20-25 | after student deletion a deleted student reads present everywhere, and everyone else reads as before |
| Domain.StudentsOf | src/pages/ClassPage.tsx:13 | the roster is exactly the students of the class, in store order, each student kept as often as it occurs |
| Home.StudentCount | src/pages/HomePage.tsx:9-11 | the count never exceeds the number of students, and it is 0 exactly when no student belongs to the class |
| Home.StudentCountAppend | src/pages/HomePage.tsx:9-11 | one more student adds one to the count of their own class and nothing to the others; with the empty roster counting 0 this makes the count the number of students with that `classId` |
| Home.StudentCountAfterImport | src/pages/HomePage.tsx:9-11 | importing `n` names into a class adds `n` to its count and nothing to any other class's count |
| Home.StudentCountAfterDeleteClass | src/pages/HomePage.tsx:9-11 | a deleted class counts no students |
| Home.ClassifyName | src/pages/HomePage.tsx:36-54 | rules are tried in the order 6, 7, 8, 9, 1, 2, 3, ACDA, FANFARRA and the first match decides; rule N holds iff the upper-cased name contains `Nº` or `N `; ACDA and FANFARRA apply only when no year rule did; otherwise the accent index is `(length + first code) mod 5`, below 5; an empty name has no colour |
| Home.ClassifyIgnoresCase | src/pages/HomePage.tsx:37 | the classification cannot tell upper from lower case |
| Home.Background | src/pages/HomePage.tsx:41-53 | every tile but the one for an empty name has a colour, and the fallback takes its colour from the accent list |
| Settings.SettingsPage.constructor | src/pages/SettingsPage.tsx:23-28 | no class is open and the selection is empty |
| Settings.SettingsPage.ToggleExpandClass | src/pages/SettingsPage.tsx:56-64 | opens the class, or closes it when it is the open one; either way the selection becomes empty |
| Settings.SetAdd | src/pages/SettingsPage.tsx:71 | `Set.add`: the elements are the old ones plus `x`, still without duplicates |
| Settings.SetDelete | src/pages/SettingsPage.tsx:69 | `Set.delete`: the elements are the old ones but `x`, still without duplicates |
| Settings.ToggledSelection | src/pages/SettingsPage.tsx:66-74 | `handleToggleSelectStudent`: delete the id when selected, add it otherwise; what this does to membership is stated by Settings.ToggleSelectFlipsOnlyIt and Settings.ToggleSelectTwice |
| Settings.ToggleSelectFlipsOnlyIt | src/pages/SettingsPage.tsx:66-74 | toggling flips the membership of `id` and of no other id |
| Settings.ToggleSelectTwice | src/pages/SettingsPage.tsx:66-74 | toggling the same id twice restores the selection's membership |
| Settings.SettingsPage.ToggleSelectStudent | src/pages/SettingsPage.tsx:66-74 | the selection becomes the toggled selection, without duplicates, and the open class stays |
| Settings.ClassStudentIds | src/pages/SettingsPage.tsx:77-78 | exactly the ids of the class's students |
| Settings.AddAll | src/pages/SettingsPage.tsx:86 | adding ids one by one gives the union, without duplicates |
| Settings.DeleteAll | src/pages/SettingsPage.tsx:84 | deleting ids one by one gives the difference, without duplicates |
| Settings.SelectedAfterSelectAll | src/pages/SettingsPage.tsx:76-89 | `handleSelectAll`: deselect the class when it is non-empty and entirely selected, select it all otherwise; what this does to membership is stated by Settings.SelectAllEffect and Settings.SelectAllTwice |
| Settings.SelectAllEffect | src/pages/SettingsPage.tsx:76-89 | a class id ends up selected iff the class was not non-empty and entirely selected; ids of other classes are untouched |
| Settings.SelectAllTwice | src/pages/SettingsPage.tsx:76-89 | pressing select-all twice selects the whole class iff it was entirely selected before, and leaves every other id alone; on a class without students nothing changes |
| Settings.SettingsPage.SelectAll | src/pages/SettingsPage.tsx:76-89 | the `every` test and the `forEach` loops give the select-all selection, without duplicates |
| Settings.SettingsPage.BulkDelete | src/pages/SettingsPage.tsx:91-100 | nothing changes on an empty selection or a declined confirmation; otherwise exactly the selected students and their keys go and the selection is cleared |
| Settings.UploadOutcome | src/pages/SettingsPage.tsx:126-133 | without a class, or without a file, the upload fails with that error before the file is read; with both, the outcome is exactly the import of the file's text |
| Settings.UploadCsv | src/pages/SettingsPage.tsx:123-202 | the outcome is the upload outcome; on success the names are appended once to the selected class; on failure the store is unchanged; a valid store stays valid when the new ids are distinct and unused |
| CsvImport.SplitLines | src/pages/SettingsPage.tsx:137 | `split(/\r?\n/)` gives at least one line; its inverse is stated by CsvImport.SplitLinesLf, CsvImport.SplitLinesCrLf and CsvImport.SplitLinesMixed |
| CsvImport.SplitLinesLackLineFeed | src/pages/SettingsPage.tsx:137 | no line holds a line feed |
| CsvImport.SplitLinesCrLf | src/pages/SettingsPage.tsx:137 | a file written with `\r\n` line ends splits back into its lines |
| CsvImport.SplitLinesLf | src/pages/SettingsPage.tsx:137 | a file written with `\n` line ends splits back into its lines when no line ends in a carriage return |
| CsvImport.SplitLinesMixed | src/pages/SettingsPage.tsx:137 | a file whose lines end in any mix of `\r\n` and `\n` splits back into its lines, as long as no line followed by a bare `\n` itself ends in `\r` |
| CsvImport.LinesOfJoin | src/pages/SettingsPage.tsx:137 | a file of non-blank lines without line feeds, none of them but the last ending in `\r`, joined by `\n`, is cut back into exactly those lines |
| CsvImport.Lines | src/pages/SettingsPage.tsx:137 | every kept line is non-blank after trimming, and every non-blank line is kept as often as it occurs, duplicates included |
| CsvImport.LinesEmptyIffBlank | src/pages/SettingsPage.tsx:137-142 | no line is kept iff every line of the file trims to nothing |
| CsvImport.Columns | src/pages/SettingsPage.tsx:187 | one column per piece of the split, so never fewer than one |
| CsvImport.ColumnsOfJoin | src/pages/SettingsPage.tsx:187 | separator-free fields without white space at either end, joined by the separator, come back as the columns |
| CsvImport.IsNameCaption | src/pages/SettingsPage.tsx:156-161 | the caption test: the column is `nome do aluno`, `nome` or `student name`, or contains `nome do aluno`; the header is searched with it by CsvImport.FindNameColumn |
| CsvImport.FindNameColumn | src/pages/SettingsPage.tsx:155-161 | the first column whose lower-cased, trimmed text is a name caption, or none when no column is |
| CsvImport.LineHeader | src/pages/SettingsPage.tsx:150-169 | a line is a header under the first of `;`, `,`, tab whose split has a caption column; no separator finds one otherwise |
| CsvImport.EarlierSeparatorWins | src/pages/SettingsPage.tsx:154-168 | a separator that finds a caption beats every later separator |
| CsvImport.LineWithoutSeparators | src/pages/SettingsPage.tsx:150-169 | a line holding none of `;`, `,` and tab is a header line iff its lower-cased, trimmed text is itself a caption |
| CsvImport.FindHeader | src/pages/SettingsPage.tsx:150-171 | the header is the first header line among the first `min(n, 20)` lines, with its separator and column; there is none when none of them is a header line |
| CsvImport.HeaderSearchSeesFirstTwenty | src/pages/SettingsPage.tsx:150 | lines after the twentieth never affect the header search |
| CsvImport.SeparatorScanOfLine | src/pages/SettingsPage.tsx:151-169 | what the separator loop finds on the lower-cased line decides whether the line is a header, and with which separator and column |
| CsvImport.TrySeparators | src/pages/SettingsPage.tsx:152-169 | the separator loop stops at the first separator under which a caption turns up, with that column |
| CsvImport.ScanForHeader | src/pages/SettingsPage.tsx:145-171 | the two nested loops with their `break`s return the header's row, separator and column, or `-1`, `,`, `-1` when there is no header |
| CsvImport.HeaderOnFirstLine | src/pages/SettingsPage.tsx:173-176 | a header on the first line makes every later line a data row, read with its separator and column |
| CsvImport.NoHeaderReadsEveryLine | src/pages/SettingsPage.tsx:173-179 | without a header every line is a data row, read as comma-separated with the name in column 0 |
| CsvImport.DataRowsAfterScan | src/pages/SettingsPage.tsx:173-179 | the scan's result fixes `startRow` (after the header, or 0) and the column (the header's, or 0) |
| CsvImport.StripQuotes | src/pages/SettingsPage.tsx:190 | the result is the field less at most one character at each end, and each removed character is a quote; a leading quote is always removed, and the end is kept only when what is left does not end in a quote |
| CsvImport.StripQuotesUnwraps | src/pages/SettingsPage.tsx:190 | a field wrapped in one quote on each side comes back without them, inner quotes kept |
| CsvImport.StripQuotesLeadOnly | src/pages/SettingsPage.tsx:190 | a leading quote alone is removed when the rest does not end in a quote |
| CsvImport.StripQuotesTrailOnly | src/pages/SettingsPage.tsx:190 | a trailing quote alone is removed when the field does not start with one |
| CsvImport.StripQuotesLoneQuote | src/pages/SettingsPage.tsx:190 | a field that is a single quote strips to nothing |
| CsvImport.StripQuotesKeepsUnquoted | src/pages/SettingsPage.tsx:190 | a field without a quote at either end is unchanged |
| CsvImport.RowName | src/pages/SettingsPage.tsx:184-194 | a row gives a name iff it is non-blank, has more than `nameColIndex` columns, and the unquoted column is acceptable (non-empty, longer than 2, not numeric); the name is then that unquoted column, in the row's own case |
| CsvImport.NamesFrom | src/pages/SettingsPage.tsx:183-195 | the names of the data rows are all acceptable and never outnumber the data rows |
| CsvImport.NamesFromFirstRow | src/pages/SettingsPage.tsx:183-195 | rows are read in file order, each adding its own name if it has one, duplicates kept |
| CsvImport.DataNames | src/pages/SettingsPage.tsx:173-195 | the names of the rows after the header (or of every row when there is none), all acceptable and never more than the lines |
| CsvImport.ReadNames | src/pages/SettingsPage.tsx:181-195 | the row loop pushes, for each row from `startRow` on and in file order, the name the row function reads from it, and nothing for a row without one; `ImportLines` passes `RowNameOf` with the header's separator and column, which makes the result `NamesFrom` |
| CsvImport.ParseLines | src/pages/SettingsPage.tsx:139-202 | an empty line list fails as an empty file, and only it does; otherwise the import fails for lack of names or imports between 1 and `|lines|` acceptable names |
| CsvImport.ParseCsv | src/pages/SettingsPage.tsx:136-202 | the import fails as an empty file exactly when every line of the file is blank |
| CsvImport.ImportLines | src/pages/SettingsPage.tsx:139-202 | the imperative body after line cutting computes the import of the lines |
| CsvImport.ParseNames | src/pages/SettingsPage.tsx:136-202 | the imperative handler computes the import of the file's text |
| CsvExamples.ImportSkipsHeaderAndNumbers | src/pages/SettingsPage.tsx:136-202 | the file `Nome do Aluno;Turma`, `Maria Silva;5A`, `12;5A` imports exactly `Maria Silva`: the header is found, the other column is ignored and the numeric name is refused |
| CsvExamples.ImportWithoutHeader | src/pages/SettingsPage.tsx:136-202 | the file `Ana`, `Bruno` has no header and imports both lines as names, in order |
| CsvExamples.WordIsAcceptable | src/pages/SettingsPage.tsx:191 | a word of more than two characters starting with a letter other than `I` is never refused as numeric |
| CsvExamples.WordIsNotHeader | src/pages/SettingsPage.tsx:150-169 | a line without separators is not a header line when, lower-cased, it is unpadded, non-empty, shorter than `nome do aluno`, and neither `nome` nor `student name` |
| CsvExamples.WholeLineRow | src/pages/SettingsPage.tsx:173-194 | without a header, a line is read whole as the name when it has more than two characters, no white space at either end, no comma, no quote at its end, and starts with a capital letter other than `I` |
| Text.Trim | src/context/AppContext.tsx:58 | `trim` keeps no white space at either end and never lengthens |
| Text.TrimStartDropsSpace | src/pages/SettingsPage.tsx:137 | the leading part `trim` drops is all white space, and the rest is kept in place |
| Text.TrimEndDropsSpace | src/pages/SettingsPage.tsx:137 | the trailing part `trim` drops is all white space, and the rest is kept in place |
| Text.TrimEmptyIffBlank | src/pages/SettingsPage.tsx:137 | a line trims to nothing iff it is all white space |
| Text.TrimKeepsUnpadded | src/pages/SettingsPage.tsx:155 | a string without white space at either end is unchanged by `trim` |
| Text.TrimIdempotent | src/pages/SettingsPage.tsx:187 | trimming twice is trimming once |
| Text.ToLower | src/pages/SettingsPage.tsx:151 | lower-casing keeps the length and leaves no upper-case ASCII letter, and each character keeps its upper-case form |
| Text.ToUpper | src/pages/HomePage.tsx:37 | upper-casing keeps the length and leaves no lower-case ASCII letter, and each character keeps its lower-case form |
| Text.ToUpperIdempotent | src/pages/HomePage.tsx:37 | upper-casing twice is upper-casing once |
| Text.ContainsIffOccurs | src/pages/HomePage.tsx:41 | `includes` holds iff the text occurs at some position |
| Text.Contains | src/pages/HomePage.tsx:41 | `includes`: the text starts with `t`, or its tail contains it; its meaning is stated by Text.ContainsIffOccurs |
| Text.ShorterLacks | src/pages/SettingsPage.tsx:160 | a text shorter than the caption cannot contain it |
| Text.SplitPiecesLackSeparator | src/pages/SettingsPage.tsx:187 | no piece of a split holds the separator |
| Text.Split | src/pages/SettingsPage.tsx:187 | one-character `split`: never fewer than one piece; Text.JoinSplit and Text.SplitJoin state that `Join` is its inverse |
| Text.SplitWithoutSeparator | src/pages/SettingsPage.tsx:155 | a text without the separator splits into one piece, itself |
| Text.JoinSplit | src/pages/SettingsPage.tsx:187 | joining the pieces of a split with the separator gives the text back |
| Text.SplitJoin | src/pages/SettingsPage.tsx:187 | splitting separator-free pieces joined by the separator gives the pieces back |
| Text.SplitAfterPrefix | src/pages/SettingsPage.tsx:187 | a separator-free prefix is glued to the first piece |
| Text.DigitsAreNumeric | src/pages/SettingsPage.tsx:191 | every non-empty run of decimal digits reads as a number, so it is never an acceptable name |
| Text.IsNumericText | src/pages/SettingsPage.tsx:191 | `!isNaN(Number(s))`: after trimming, empty, or a `0x`/`0o`/`0b` integer, or an optionally signed decimal with optional point and exponent, or `Infinity` |
| Text.NumericTextStart | src/pages/SettingsPage.tsx:191 | text that reads as a number starts, once trimmed, with a digit, a sign, a point or the `I` of `Infinity` |
| Seqs.Filter | src/context/AppContext.tsx:99-107 | `filter` keeps exactly the elements that pass, each as many times as it occurs, and drops every copy of the others |
| Seqs.FilterIsSubsequence | src/context/AppContext.tsx:99-107 | `filter` keeps the survivors' relative order |
| Seqs.FilterAppend | src/pages/HomePage.tsx:10 | filtering a concatenation filters each part |
| Seqs.FilterDistinct | src/context/AppContext.tsx:99-107 | filtering never introduces two elements with the same key |
| Seqs.FindIndex | src/pages/SettingsPage.tsx:156 | `findIndex`: the first position that passes, with no earlier one passing, or the length when none passes |
| Seqs.FlatMapSplit | src/pages/SettingsPage.tsx:183-195 | the values pushed for a range of rows are those of its two halves, in order |

## Left out

- Browser storage (`localStorage`) and JSON encoding: the store's initial state is a constructor parameter, and writing it back is not modelled.
- `crypto.randomUUID()`: the identifiers are parameters. Store.AttendanceStore.AddClass and Store.AttendanceStore.AddStudentsFromCsv promise unique ids only when the given ids are fresh and distinct.
- React plumbing is not modelled: hooks, rendering, routing, the status messages and their `setTimeout`, and the DOM file-input reset. The default date taken from the clock is not modelled either.
- `window.confirm` becomes the `confirmed` parameter of Settings.SettingsPage.BulkDelete.
- `csvFile.text()` and the `try`/`catch` around it: the file's text is a parameter, and a read failure is not modelled.
- `handleAddClass`, `handleDeleteClass` and `handleDeleteStudent` are not modelled. They trim or confirm, then call the store operations, which are modelled.
- `handleStartEdit`, `handleSaveEdit` and `handleCancelEdit` are not modelled, because `updateClass` does not exist in the store.
- The `loading` flag is not modelled, because the store does not provide it.
- `toLowerCase` and `toUpperCase` map only the ASCII letters. Other letters, such as accented ones, keep their case in the model.
- String lengths count Unicode characters, not UTF-16 code units, and `charCodeAt(0)` is read as the first character's code point. The two differ only for characters outside the Basic Multilingual Plane.
- `Number()` is modelled by its grammar of decimal, hexadecimal, octal, binary and `Infinity` literals. The grammar is not checked against a JavaScript engine.
- The spreadsheet synchronisation function (`supabase/functions/sync-google-sheets/index.ts`) is not part of this model: it is network and cryptography plumbing.
- `src/components/Layout.tsx` and `src/App.tsx` are not modelled; they hold layout and routing only.
- CsvImport.ParseCsv states only the empty-file case on the text. Its other promises are stated on CsvImport.ParseLines, which it applies to the non-blank lines. The lemmas of `CsvExamples` work two whole files through it.
- Store.AttendanceStore.GetAttendanceForDate carries no contract of its own; it is Domain.FindRecord applied to the store's attendance, and it only reads the state.
