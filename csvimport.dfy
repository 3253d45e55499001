/** The CSV import of the settings page (`handleFileUpload` in `src/pages/SettingsPage.tsx`):
    find the header row and the name column by their captions, then read one name per data row. */
module CsvImport {
  import opened Seqs
  import opened Text
  import opened Domain

  /** Why an upload imports nothing. */
  datatype ImportError =
    | NoClassSelected   // "Por favor, selecione uma turma primeiro."
    | NoFileChosen      // "Por favor, selecione um arquivo CSV."
    | EmptyFile         // "O arquivo CSV parece estar vazio."
    | NoValidNames      // "Nenhum nome válido encontrado. ..."

  datatype ImportOutcome = Imported(names: seq<string>) | Failed(error: ImportError)

  /** `text.split(/\r?\n/)`: the pieces between line feeds; a piece followed by a line feed loses
      one carriage return at its end. */
  function SplitLines(text: string): (lines: seq<string>)
    ensures |lines| >= 1
  {
    var pieces := Split(text, '\n');
    seq(|pieces|, i requires 0 <= i < |pieces| =>
      if i < |pieces| - 1 && pieces[i] != [] && pieces[i][|pieces[i]| - 1] == '\r'
      then pieces[i][..|pieces[i]| - 1] else pieces[i])
  }

  /** No line holds a line feed. */
  lemma SplitLinesLackLineFeed(text: string)
    ensures forall i :: 0 <= i < |SplitLines(text)| ==> '\n' !in SplitLines(text)[i]
  {
    var pieces := Split(text, '\n');
    SplitPiecesLackSeparator(text, '\n');
    forall i | 0 <= i < |pieces| ensures '\n' !in SplitLines(text)[i] {
      assert forall c :: c in SplitLines(text)[i] ==> c in pieces[i];
    }
  }

  /** The text of a file written with Windows line ends: every line but the last ends in a carriage
      return and a line feed. */
  function JoinCrLf(lines: seq<string>): string
    requires |lines| >= 1
  {
    Join(seq(|lines|, i requires 0 <= i < |lines| => if i < |lines| - 1 then lines[i] + ['\r'] else lines[i]), '\n')
  }

  /** Splitting a file written with Windows line ends gives back its lines. */
  lemma SplitLinesCrLf(lines: seq<string>)
    requires |lines| >= 1 && forall i :: 0 <= i < |lines| ==> '\n' !in lines[i]
    ensures SplitLines(JoinCrLf(lines)) == lines
  {
    var pieces := seq(|lines|, i requires 0 <= i < |lines| => if i < |lines| - 1 then lines[i] + ['\r'] else lines[i]);
    forall i | 0 <= i < |pieces| ensures '\n' !in pieces[i] {
      if i < |lines| - 1 {
        assert forall c :: c in pieces[i] ==> c in lines[i] || c == '\r';
      }
    }
    SplitJoin(pieces, '\n');
    forall i | 0 <= i < |lines| - 1 ensures pieces[i][..|pieces[i]| - 1] == lines[i] {
    }
  }

  /** Splitting a file written with Unix line ends gives back its lines, as long as no line but the
      last ends in a carriage return (which would be read as part of a Windows line end). */
  lemma SplitLinesLf(lines: seq<string>)
    requires |lines| >= 1 && forall i :: 0 <= i < |lines| ==> '\n' !in lines[i]
    requires forall i :: 0 <= i < |lines| - 1 && lines[i] != [] ==> lines[i][|lines[i]| - 1] != '\r'
    ensures SplitLines(Join(lines, '\n')) == lines
  {
    SplitJoin(lines, '\n');
  }

  /** The text of a file whose line ends are mixed: line `i` is followed by a carriage return and a
      line feed when `crlf[i]` holds, and by a line feed alone otherwise. */
  function JoinMixed(lines: seq<string>, crlf: seq<bool>): string
    requires |lines| >= 1 && |crlf| == |lines| - 1
  {
    Join(seq(|lines|, i requires 0 <= i < |lines| => if i < |lines| - 1 && crlf[i] then lines[i] + ['\r'] else lines[i]), '\n')
  }

  /** Splitting a file with any mix of Windows and Unix line ends gives back its lines, as long as
      no line that ends in a bare line feed itself ends in a carriage return. */
  lemma SplitLinesMixed(lines: seq<string>, crlf: seq<bool>)
    requires |lines| >= 1 && |crlf| == |lines| - 1
    requires forall i :: 0 <= i < |lines| ==> '\n' !in lines[i]
    requires forall i :: 0 <= i < |lines| - 1 && !crlf[i] && lines[i] != [] ==> lines[i][|lines[i]| - 1] != '\r'
    ensures SplitLines(JoinMixed(lines, crlf)) == lines
  {
    var pieces := seq(|lines|, i requires 0 <= i < |lines| => if i < |lines| - 1 && crlf[i] then lines[i] + ['\r'] else lines[i]);
    forall i | 0 <= i < |pieces| ensures '\n' !in pieces[i] {
      if i < |lines| - 1 && crlf[i] {
        assert forall c :: c in pieces[i] ==> c in lines[i] || c == '\r';
      }
    }
    SplitJoin(pieces, '\n');
    forall i | 0 <= i < |lines| - 1 && crlf[i] ensures pieces[i][..|pieces[i]| - 1] == lines[i] {
    }
  }

  function IsNonBlank(line: string): bool { Trim(line) != [] }

  /** `.filter(line => line.trim() !== '')` applied to the lines of the file. */
  function Lines(text: string): (lines: seq<string>)
    ensures forall i :: 0 <= i < |lines| ==> Trim(lines[i]) != []
    ensures forall x :: multiset(lines)[x] == if Trim(x) != [] then multiset(SplitLines(text))[x] else 0
  {
    Filter(SplitLines(text), IsNonBlank)
  }

  /** The file has no non-blank line exactly when every line trims to nothing. */
  lemma LinesEmptyIffBlank(text: string)
    ensures Lines(text) == [] <==> forall i :: 0 <= i < |SplitLines(text)| ==> Trim(SplitLines(text)[i]) == []
  {
    var pieces := SplitLines(text);
    if exists i :: 0 <= i < |pieces| && Trim(pieces[i]) != [] {
      var i :| 0 <= i < |pieces| && Trim(pieces[i]) != [];
      assert IsNonBlank(pieces[i]);
      assert pieces[i] in Lines(text);
    }
    if Lines(text) != [] {
      assert Lines(text)[0] in pieces;
    }
  }

  /** A file whose lines are all non-blank, joined by line feeds, is cut back into those lines. */
  lemma LinesOfJoin(lines: seq<string>)
    requires |lines| >= 1 && forall i :: 0 <= i < |lines| ==> '\n' !in lines[i]
    requires forall i :: 0 <= i < |lines| - 1 && lines[i] != [] ==> lines[i][|lines[i]| - 1] != '\r'
    requires forall i :: 0 <= i < |lines| ==> Trim(lines[i]) != []
    ensures Lines(Join(lines, '\n')) == lines
  {
    SplitLinesLf(lines);
    FilterKeepsAll(lines, IsNonBlank);
  }

  /** Only the first lines are searched for a header. */
  const HeaderScanLimit: nat := 20

  /** The separators tried on each candidate header line, in this order. */
  const Separators: seq<char> := [';', ',', '\t']

  /** `line.split(separator).map(c => c.trim())`. */
  function Columns(line: string, separator: char): (columns: seq<string>)
    ensures |columns| == |Split(line, separator)| >= 1
  {
    var parts := Split(line, separator);
    seq(|parts|, k requires 0 <= k < |parts| => Trim(parts[k]))
  }

  /** Separator-free, unpadded fields joined by the separator split back into those fields. */
  lemma ColumnsOfJoin(fields: seq<string>, separator: char)
    requires |fields| >= 1
    requires forall k :: 0 <= k < |fields| ==> separator !in fields[k]
    requires forall k :: 0 <= k < |fields| ==> fields[k] == [] || (!IsSpace(fields[k][0]) && !IsSpace(fields[k][|fields[k]| - 1]))
    ensures Columns(Join(fields, separator), separator) == fields
  {
    SplitJoin(fields, separator);
    forall k | 0 <= k < |fields| ensures Trim(fields[k]) == fields[k] {
      TrimKeepsUnpadded(fields[k]);
    }
  }

  /** The captions that mark the name column (compared after lower-casing and trimming). */
  predicate IsNameCaption(column: string) {
    || column == "nome do aluno"
    || column == "nome"
    || column == "student name"
    || Contains(column, "nome do aluno")
  }

  /** `columns.findIndex(IsNameCaption)`: the first name caption, `None` for -1. */
  function FindNameColumn(columns: seq<string>): (r: Option<nat>)
    ensures r.Some? ==> r.value < |columns| && IsNameCaption(columns[r.value])
    ensures r.Some? ==> forall j :: 0 <= j < r.value ==> !IsNameCaption(columns[j])
    ensures r.None? ==> forall j :: 0 <= j < |columns| ==> !IsNameCaption(columns[j])
  {
    var i := FindIndex(columns, IsNameCaption);
    if i < |columns| then Some(i) else None
  }

  /** Whether the lower-cased `line`, split by `separator`, has a name caption. */
  function SplitsToHeader(line: string): char -> bool {
    (separator: char) => FindNameColumn(Columns(line, separator)).Some?
  }

  /** A candidate header line tried with each separator in turn: the first separator under which a
      column of the lower-cased line is a name caption, and that column. */
  function LineHeader(line: string): (r: Option<(char, nat)>)
    ensures r.Some? ==> r.value.0 in Separators && FindNameColumn(Columns(ToLower(line), r.value.0)) == Some(r.value.1)
    ensures r.None? ==> forall k :: 0 <= k < |Separators| ==> FindNameColumn(Columns(ToLower(line), Separators[k])).None?
  {
    var lower := ToLower(line);
    var k := FindIndex(Separators, SplitsToHeader(lower));
    if k < |Separators| then
      Some((Separators[k], FindNameColumn(Columns(lower, Separators[k])).value))
    else None
  }

  /** The separators are tried in order: one that finds a caption beats every later one. */
  lemma EarlierSeparatorWins(line: string, m: nat, k: nat)
    requires m < k < |Separators|
    requires FindNameColumn(Columns(ToLower(line), Separators[m])).Some?
    ensures LineHeader(line).Some? && LineHeader(line).value.0 != Separators[k]
  {
    var byLine := SplitsToHeader(ToLower(line));
    assert byLine(Separators[m]);
    var i := FindIndex(Separators, byLine);
    assert i <= m;
    SeparatorsDiffer(i, k);
  }

  lemma SeparatorsDiffer(i: nat, k: nat)
    requires i < k < |Separators|
    ensures Separators[i] != Separators[k]
  {
  }

  predicate IsHeaderLine(line: string) {
    LineHeader(line).Some?
  }

  /** A line holding none of the separators is a header line only if, lower-cased and trimmed, it
      is a name caption itself. */
  lemma LineWithoutSeparators(line: string)
    requires forall separator :: separator in Separators ==> separator !in line
    ensures IsHeaderLine(line) <==> IsNameCaption(Trim(ToLower(line)))
  {
    var lower := ToLower(line);
    forall separator | separator in Separators ensures Columns(lower, separator) == [Trim(lower)] {
      LoweringKeepsOut(line, separator);
      SplitWithoutSeparator(lower, separator);
    }
    OneColumnHeader(Trim(lower));
    assert Separators[0] in Separators;
  }

  /** Lower-casing never brings in a character that is not a letter. */
  lemma LoweringKeepsOut(line: string, c: char)
    requires c !in line && !('a' <= c <= 'z') && !('A' <= c <= 'Z')
    ensures c !in ToLower(line)
  {
    forall i | 0 <= i < |line| ensures ToLower(line)[i] != c {
    }
  }

  /** A line split into a single column has a name caption exactly when that column is one. */
  lemma OneColumnHeader(column: string)
    ensures FindNameColumn([column]).Some? <==> IsNameCaption(column)
  {
  }

  /** Where the header was found: its row, the separator that split it, and the name column. */
  datatype Header = Header(row: nat, separator: char, nameCol: nat)

  /** How many lines the header search looks at: `Math.min(lines.length, 20)`. */
  function ScanEnd(lines: seq<string>): (n: nat)
    ensures n <= |lines| && n <= HeaderScanLimit
    ensures n == |lines| || n == HeaderScanLimit
  {
    if |lines| < HeaderScanLimit then |lines| else HeaderScanLimit
  }

  /** The header search: the first of the first twenty lines that is a header line. */
  function FindHeader(lines: seq<string>): (r: Option<Header>)
    ensures r.Some? ==> && r.value.row < ScanEnd(lines)
                        && LineHeader(lines[r.value.row]) == Some((r.value.separator, r.value.nameCol))
                        && forall j :: 0 <= j < r.value.row ==> !IsHeaderLine(lines[j])
    ensures r.None? ==> forall j :: 0 <= j < ScanEnd(lines) ==> !IsHeaderLine(lines[j])
  {
    var row := FindIndexIn(lines, IsHeaderLine, 0, ScanEnd(lines));
    if row < ScanEnd(lines) then
      var hit := LineHeader(lines[row]).value;
      Some(Header(row, hit.0, hit.1))
    else None
  }

  /** Lines past the twentieth never take part in the header search. */
  lemma HeaderSearchSeesFirstTwenty(lines: seq<string>, rest: seq<string>)
    requires |lines| >= HeaderScanLimit
    ensures FindHeader(lines + rest) == FindHeader(lines)
  {
    var row := FindIndexIn(lines, IsHeaderLine, 0, HeaderScanLimit);
    FindIndexInAppend(lines, rest, IsHeaderLine, 0, HeaderScanLimit);
    if row < HeaderScanLimit {
      assert (lines + rest)[row] == lines[row];
    }
  }

  predicate IsQuote(c: char) { c == '"' || c == '\'' }

  /** What `StripQuotes` drops at one end: nothing, or a single quote. */
  predicate DroppedQuote(a: string)
  {
    a == [] || (|a| == 1 && IsQuote(a[0]))
  }

  /** `name.replace(/^["']|["']$/g, '')`: one leading and one trailing quote go, independently.
      `r` starts at index 1 of `s` when `s` starts with a quote and at index 0 otherwise; what
      follows `r` in `s` is nothing or one quote, and it is nothing only when `r` does not end in one. */
  function StripQuotes(s: string): (r: string)
    ensures |r| <= |s|
    ensures s != [] && IsQuote(s[0]) ==>
      && 1 + |r| <= |s| && r == s[1..1 + |r|] && DroppedQuote(s[1 + |r|..])
      && (1 + |r| == |s| ==> r == [] || !IsQuote(r[|r| - 1]))
    ensures (s == [] || !IsQuote(s[0])) ==>
      && r == s[..|r|] && DroppedQuote(s[|r|..])
      && (|r| == |s| ==> r == [] || !IsQuote(r[|r| - 1]))
  {
    var afterLead := if s != [] && IsQuote(s[0]) then s[1..] else s;
    if afterLead != [] && IsQuote(afterLead[|afterLead| - 1]) then afterLead[..|afterLead| - 1] else afterLead
  }

  /** A name wrapped in one quote on each side comes back without them (but keeps any inner quote). */
  lemma StripQuotesUnwraps(open: char, t: string, close: char)
    requires IsQuote(open) && IsQuote(close)
    ensures StripQuotes([open] + t + [close]) == t
  {
    var s := [open] + t + [close];
    assert s[1..] == t + [close];
    assert (t + [close])[..|t|] == t;
  }

  /** A quote only at the start goes, and the rest is kept. */
  lemma StripQuotesLeadOnly(q: char, t: string)
    requires IsQuote(q) && (t == [] || !IsQuote(t[|t| - 1]))
    ensures StripQuotes([q] + t) == t
  {
    assert ([q] + t)[1..] == t;
  }

  /** A quote only at the end goes, and the rest is kept. */
  lemma StripQuotesTrailOnly(t: string, q: char)
    requires IsQuote(q) && t != [] && !IsQuote(t[0])
    ensures StripQuotes(t + [q]) == t
  {
    assert (t + [q])[..|t|] == t;
  }

  /** A lone quote is removed once, as a leading quote, and nothing is left. */
  lemma StripQuotesLoneQuote(q: char)
    requires IsQuote(q)
    ensures StripQuotes([q]) == []
  {
  }

  /** A field with no quote at either end is taken as it is. */
  lemma StripQuotesKeepsUnquoted(s: string)
    requires s == [] || (!IsQuote(s[0]) && !IsQuote(s[|s| - 1]))
    ensures StripQuotes(s) == s
  {
  }

  /** `name && name.length > 2 && isNaN(Number(name))`. */
  predicate IsAcceptableName(name: string) {
    name != [] && |name| > 2 && !IsNumericText(name)
  }

  /** What one data row contributes: the unquoted name column, when the row has that column and the
      name is acceptable. The row keeps its case. */
  function RowName(line: string, separator: char, nameCol: nat): (r: Option<string>)
    ensures r.Some? ==> IsAcceptableName(r.value)
    ensures |Columns(line, separator)| <= nameCol ==> r.None?
    ensures r.Some? <==> && Trim(line) != [] && nameCol < |Columns(line, separator)|
                         && IsAcceptableName(StripQuotes(Columns(line, separator)[nameCol]))
    ensures r.Some? ==> r.value == StripQuotes(Columns(line, separator)[nameCol])
  {
    if Trim(line) == [] then None
    else
      var columns := Columns(line, separator);
      if |columns| > nameCol then
        var name := StripQuotes(columns[nameCol]);
        if IsAcceptableName(name) then Some(name) else None
      else None
  }

  /** The name of a data row read with the given separator and name column, as a function of the row. */
  function RowNameOf(separator: char, nameCol: nat): string -> Option<string> {
    (line: string) => RowName(line, separator, nameCol)
  }

  /** What one data row pushes onto the list of names: the name `rowName` reads from it, or nothing. */
  function Pushes(rowName: string -> Option<string>): string -> seq<string> {
    (line: string) => match rowName(line) case Some(name) => [name] case None => []
  }

  /** The names read from the rows `startRow` to the end of the file, in file order. */
  function NamesFrom(lines: seq<string>, startRow: nat, separator: char, nameCol: nat): (names: seq<string>)
    requires startRow <= |lines|
    ensures |names| <= |lines| - startRow
    ensures forall i :: 0 <= i < |names| ==> IsAcceptableName(names[i])
  {
    var f := Pushes(RowNameOf(separator, nameCol));
    FlatMapAll(lines, f, IsAcceptableName, startRow, |lines|);
    FlatMap(lines, f, startRow, |lines|)
  }

  /** Names are read row by row: the first row contributes its own name, if it has one, ahead of
      the names of every later row, duplicates kept. */
  lemma NamesFromFirstRow(lines: seq<string>, startRow: nat, separator: char, nameCol: nat)
    requires startRow < |lines|
    ensures NamesFrom(lines, startRow, separator, nameCol)
         == (match RowName(lines[startRow], separator, nameCol) case Some(name) => [name] case None => [])
            + NamesFrom(lines, startRow + 1, separator, nameCol)
  {
    var f := Pushes(RowNameOf(separator, nameCol));
    FlatMapSplit(lines, f, startRow, startRow + 1, |lines|);
    assert FlatMap(lines, f, startRow, startRow + 1) == f(lines[startRow]);
  }

  /** Where the data rows start, with the separator and name column they are read with: after the
      header, with its separator and column, when there is one; otherwise from the first line, read
      as comma-separated with the name first. */
  function DataStart(found: Option<Header>): (nat, char, nat) {
    match found
    case Some(h) => (h.row + 1, h.separator, h.nameCol)
    case None => (0, ',', 0)
  }

  /** The names of the data rows, in file order. */
  function DataNames(lines: seq<string>): (names: seq<string>)
    ensures |names| <= |lines|
    ensures forall i :: 0 <= i < |names| ==> IsAcceptableName(names[i])
  {
    var (startRow, separator, nameCol) := DataStart(FindHeader(lines));
    NamesFrom(lines, startRow, separator, nameCol)
  }

  /** The import once the file is cut into its non-blank lines. */
  function ParseLines(lines: seq<string>): (outcome: ImportOutcome)
    ensures outcome.Failed? ==> outcome.error == EmptyFile || outcome.error == NoValidNames
    ensures outcome == Failed(EmptyFile) <==> lines == []
    ensures outcome.Imported? ==> 0 < |outcome.names| <= |lines|
    ensures outcome.Imported? ==> forall i :: 0 <= i < |outcome.names| ==> IsAcceptableName(outcome.names[i])
  {
    if lines == [] then Failed(EmptyFile)
    else
      var names := DataNames(lines);
      if names == [] then Failed(NoValidNames) else Imported(names)
  }

  /** The whole import, from the text of the file to the names handed to the store. */
  function ParseCsv(text: string): (outcome: ImportOutcome)
    ensures outcome == Failed(EmptyFile) <==> forall i :: 0 <= i < |SplitLines(text)| ==> Trim(SplitLines(text)[i]) == []
  {
    var lines := Lines(text);
    LinesEmptyIffBlank(text);
    ParseLines(lines)
  }

  /** What the separator loop found on the lower-cased `line` decides whether `line` is a header line,
      and with which separator and column. */
  lemma SeparatorScanOfLine(line: string, k: nat, nameCol: int)
    requires k == FindIndex(Separators, SplitsToHeader(ToLower(line)))
    requires k < |Separators| ==> FindNameColumn(Columns(ToLower(line), Separators[k])) == Some(nameCol)
    ensures IsHeaderLine(line) <==> k < |Separators|
    ensures k < |Separators| ==> && LineHeader(line).Some?
                                 && LineHeader(line).value.0 == Separators[k] && LineHeader(line).value.1 == nameCol
  {
  }

  /** The inner loop of the header scan: the separators tried in turn on one lower-cased line until
      one of them splits off a name caption; `|Separators|` when none does. */
  method TrySeparators(line: string) returns (k: nat, nameColIndex: int)
    ensures k == FindIndex(Separators, SplitsToHeader(line))
    ensures k < |Separators| ==> FindNameColumn(Columns(line, Separators[k])) == Some(nameColIndex)
  {
    ghost var byLine := SplitsToHeader(line);
    k := 0;
    while k < |Separators|
      invariant 0 <= k <= |Separators|
      invariant FindIndex(Separators, byLine) == FindIndexIn(Separators, byLine, k, |Separators|)
    {
      var index := FindNameColumn(Columns(line, Separators[k]));
      if index.Some? {
        return k, index.value;
      }
      k := k + 1;
    }
    nameColIndex := -1;
  }

  /** The header scan of `handleFileUpload`: the first twenty lines, lower-cased, each tried with
      every separator until a name caption turns up; -1 and a comma when none does. */
  method ScanForHeader(lines: seq<string>) returns (headerIndex: int, separator: char, nameColIndex: int)
    ensures match FindHeader(lines)
      case Some(h) => headerIndex == h.row && separator == h.separator && nameColIndex == h.nameCol
      case None => headerIndex == -1 && separator == ',' && nameColIndex == -1
  {
    var scanEnd := if |lines| < HeaderScanLimit then |lines| else HeaderScanLimit;
    var i := 0;
    while i < scanEnd
      invariant 0 <= i <= scanEnd == ScanEnd(lines)
      invariant FindIndexIn(lines, IsHeaderLine, 0, scanEnd) == FindIndexIn(lines, IsHeaderLine, i, scanEnd)
    {
      var k, col := TrySeparators(ToLower(lines[i]));
      SeparatorScanOfLine(lines[i], k, col);
      if k < |Separators| {
        return i, Separators[k], col;
      }
      i := i + 1;
    }
    return -1, ',', -1;
  }

  /** The row loop of `handleFileUpload`: from `startRow` on, each row's name, as `rowName` reads it
      (`RowNameOf` with the header's separator and name column), is pushed when it has one. */
  method ReadNames(lines: seq<string>, startRow: nat, rowName: string -> Option<string>) returns (namesToImport: seq<string>)
    requires startRow <= |lines|
    ensures namesToImport == FlatMap(lines, Pushes(rowName), startRow, |lines|)
  {
    namesToImport := [];
    var i := startRow;
    while i < |lines|
      invariant startRow <= i <= |lines|
      invariant namesToImport == FlatMap(lines, Pushes(rowName), startRow, i)
    {
      var line := lines[i];
      var name := rowName(line);
      if name.Some? {
        namesToImport := namesToImport + [name.value];
      }
      i := i + 1;
    }
  }

  /** A header on the first line makes every later line a data row, read with the header's
      separator and name column. */
  lemma HeaderOnFirstLine(lines: seq<string>)
    requires lines != [] && IsHeaderLine(lines[0])
    ensures var (separator, nameCol) := LineHeader(lines[0]).value;
      && FindHeader(lines) == Some(Header(0, separator, nameCol))
      && DataNames(lines) == NamesFrom(lines, 1, separator, nameCol)
  {
  }

  /** Without a header among the first twenty lines, every line is a data row, read as
      comma-separated with the name in the first column. */
  lemma NoHeaderReadsEveryLine(lines: seq<string>)
    requires forall j :: 0 <= j < ScanEnd(lines) ==> !IsHeaderLine(lines[j])
    ensures FindHeader(lines).None?
    ensures DataNames(lines) == NamesFrom(lines, 0, ',', 0)
  {
    FindIndexInIs(lines, IsHeaderLine, 0, ScanEnd(lines), ScanEnd(lines));
  }

  /** The scan's result decides where the data rows start and which column holds the names. */
  lemma DataRowsAfterScan(found: Option<Header>, headerIndex: int, separator: char, nameColIndex: int)
    requires match found
      case Some(h) => headerIndex == h.row && separator == h.separator && nameColIndex == h.nameCol
      case None => headerIndex == -1 && separator == ',' && nameColIndex == -1
    ensures headerIndex != -1 ==> 0 <= headerIndex && 0 <= nameColIndex
                                  && DataStart(found) == (headerIndex + 1, separator, nameColIndex)
    ensures headerIndex == -1 ==> DataStart(found) == (0, separator, 0)
  {
  }

  /** `handleFileUpload` from the text of the file to what it imports or the message it shows. */
  method ParseNames(text: string) returns (outcome: ImportOutcome)
    ensures outcome == ParseCsv(text)
  {
    var lines := Lines(text);
    outcome := ImportLines(lines);
  }

  /** The body of `handleFileUpload` after the file is cut into lines: the empty-file check, the
      header scan, the row loop and the final check for names. */
  method ImportLines(lines: seq<string>) returns (outcome: ImportOutcome)
    ensures outcome == ParseLines(lines)
  {
    if |lines| == 0 {
      return Failed(EmptyFile);
    }
    var headerIndex, separator, nameColIndex := ScanForHeader(lines);
    DataRowsAfterScan(FindHeader(lines), headerIndex, separator, nameColIndex);
    var startRow := 0;
    if headerIndex != -1 {
      startRow := headerIndex + 1;
    } else {
      nameColIndex := 0;
    }
    var namesToImport := ReadNames(lines, startRow, RowNameOf(separator, nameColIndex));
    assert namesToImport == DataNames(lines);
    if |namesToImport| == 0 {
      return Failed(NoValidNames);
    }
    return Imported(namesToImport);
  }
}
