/** Two files worked through the whole import by proof, from their text to the names handed to the store. */
module CsvExamples {
  import opened Text
  import opened Domain
  import opened CsvImport

  /** An unpadded field that starts with a letter other than `I` is an acceptable name when it has
      more than two characters. */
  lemma WordIsAcceptable(name: string)
    requires |name| > 2 && !IsSpace(name[0]) && !IsSpace(name[|name| - 1])
    requires 'A' <= name[0] <= 'Z' || 'a' <= name[0] <= 'z'
    requires name[0] != 'I'
    ensures IsAcceptableName(name)
  {
    TrimKeepsUnpadded(name);
    if IsNumericText(name) {
      NumericTextStart(name);
    }
  }

  /** A line with no separator whose lower-cased form is a short word other than `nome` is data. */
  lemma WordIsNotHeader(line: string, lower: string)
    requires ToLower(line) == lower
    requires forall separator :: separator in Separators ==> separator !in line
    requires lower != [] && !IsSpace(lower[0]) && !IsSpace(lower[|lower| - 1])
    requires |lower| < |"nome do aluno"| && lower != "nome" && lower != "student name"
    ensures !IsHeaderLine(line)
  {
    TrimKeepsUnpadded(lower);
    ShorterLacks(lower, "nome do aluno");
    LineWithoutSeparators(line);
  }

  /** A line without commas or quotes, starting with a capital other than `I`, is read whole as a name
      when there is no header. */
  lemma WholeLineRow(name: string)
    requires |name| > 2 && !IsSpace(name[0]) && !IsSpace(name[|name| - 1])
    requires 'A' <= name[0] <= 'Z' && name[0] != 'I'
    requires ',' !in name && !IsQuote(name[|name| - 1])
    ensures RowName(name, ',', 0) == Some(name)
  {
    SplitWithoutSeparator(name, ',');
    TrimKeepsUnpadded(name);
    StripQuotesKeepsUnquoted(name);
    WordIsAcceptable(name);
  }

  // The file "Nome do Aluno;Turma\nMaria Silva;5A\n12;5A".

  lemma DataRowsText(rows: seq<string>)
    requires rows == ["Maria Silva;5A", "12;5A"]
    ensures Join(rows, '\n') == "Maria Silva;5A\n12;5A"
  {
    assert rows[1..] == ["12;5A"];
  }

  lemma HeaderFileText(lines: seq<string>)
    requires lines == ["Nome do Aluno;Turma", "Maria Silva;5A", "12;5A"]
    ensures Join(lines, '\n') == "Nome do Aluno;Turma\nMaria Silva;5A\n12;5A"
  {
    DataRowsText(lines[1..]);
  }

  lemma HeaderFileLines(lines: seq<string>)
    requires lines == ["Nome do Aluno;Turma", "Maria Silva;5A", "12;5A"]
    ensures Lines("Nome do Aluno;Turma\nMaria Silva;5A\n12;5A") == lines
  {
    HeaderFileText(lines);
    TrimKeepsUnpadded(lines[0]);
    TrimKeepsUnpadded(lines[1]);
    TrimKeepsUnpadded(lines[2]);
    LinesOfJoin(lines);
  }

  lemma PortugueseHeaderColumns(lower: string)
    requires lower == "nome do aluno;turma"
    ensures FindNameColumn(Columns(lower, ';')) == Some(0)
  {
    assert Join(["nome do aluno", "turma"], ';') == lower;
    ColumnsOfJoin(["nome do aluno", "turma"], ';');
  }

  /** The Portuguese caption, split by `;`, puts the names in column 0. */
  lemma PortugueseHeader()
    ensures LineHeader("Nome do Aluno;Turma") == Some((';', 0))
  {
    var lower := "nome do aluno;turma";
    assert ToLower("Nome do Aluno;Turma") == lower;
    PortugueseHeaderColumns(lower);
    assert SplitsToHeader(lower)(Separators[0]);
  }

  lemma HeaderFileStart(lines: seq<string>)
    requires lines == ["Nome do Aluno;Turma", "Maria Silva;5A", "12;5A"]
    ensures DataNames(lines) == NamesFrom(lines, 1, ';', 0)
  {
    PortugueseHeader();
    assert FindHeader(lines) == Some(Header(0, ';', 0));
  }

  lemma MariaColumns(line: string)
    requires line == "Maria Silva;5A"
    ensures Columns(line, ';') == ["Maria Silva", "5A"]
  {
    assert Join(["Maria Silva", "5A"], ';') == line;
    ColumnsOfJoin(["Maria Silva", "5A"], ';');
  }

  lemma MariaRow(line: string)
    requires line == "Maria Silva;5A"
    ensures RowName(line, ';', 0) == Some("Maria Silva")
  {
    MariaColumns(line);
    TrimKeepsUnpadded(line);
    StripQuotesKeepsUnquoted("Maria Silva");
    WordIsAcceptable("Maria Silva");
  }

  lemma NumberRow(line: string)
    requires line == "12;5A"
    ensures RowName(line, ';', 0) == None
  {
    assert Join(["12", "5A"], ';') == line;
    ColumnsOfJoin(["12", "5A"], ';');
    StripQuotesKeepsUnquoted("12");
    DigitsAreNumeric("12");
  }

  lemma HeaderFileRows(lines: seq<string>)
    requires lines == ["Nome do Aluno;Turma", "Maria Silva;5A", "12;5A"]
    ensures NamesFrom(lines, 1, ';', 0) == ["Maria Silva"]
  {
    MariaRow(lines[1]);
    NumberRow(lines[2]);
    NamesFromFirstRow(lines, 1, ';', 0);
    NamesFromFirstRow(lines, 2, ';', 0);
  }

  /** A semicolon-separated file with a Portuguese header: the header is skipped, the second column
      is ignored, and the row whose name is a number imports nothing. */
  lemma ImportSkipsHeaderAndNumbers()
    ensures ParseCsv("Nome do Aluno;Turma\nMaria Silva;5A\n12;5A") == Imported(["Maria Silva"])
  {
    var lines := ["Nome do Aluno;Turma", "Maria Silva;5A", "12;5A"];
    HeaderFileLines(lines);
    HeaderFileStart(lines);
    HeaderFileRows(lines);
  }

  // The file "Ana\nBruno".

  lemma HeaderlessLines(lines: seq<string>)
    requires lines == ["Ana", "Bruno"]
    ensures Lines("Ana\nBruno") == lines
  {
    assert Join(lines, '\n') == "Ana\nBruno" by {
      assert lines[1..] == ["Bruno"];
    }
    TrimKeepsUnpadded(lines[0]);
    TrimKeepsUnpadded(lines[1]);
    LinesOfJoin(lines);
  }

  lemma AnaIsData(line: string)
    requires line == "Ana"
    ensures !IsHeaderLine(line)
  {
    assert ToLower(line) == "ana";
    WordIsNotHeader(line, "ana");
  }

  lemma BrunoIsData(line: string)
    requires line == "Bruno"
    ensures !IsHeaderLine(line)
  {
    assert ToLower(line) == "bruno";
    WordIsNotHeader(line, "bruno");
  }

  lemma HeaderlessStart(lines: seq<string>)
    requires lines == ["Ana", "Bruno"]
    ensures DataNames(lines) == NamesFrom(lines, 0, ',', 0)
  {
    AnaIsData(lines[0]);
    BrunoIsData(lines[1]);
    assert FindHeader(lines) == None;
  }

  lemma AnaRow(line: string)
    requires line == "Ana"
    ensures RowName(line, ',', 0) == Some(line)
  {
    WholeLineRow(line);
  }

  lemma BrunoRow(line: string)
    requires line == "Bruno"
    ensures RowName(line, ',', 0) == Some(line)
  {
    WholeLineRow(line);
  }

  lemma HeaderlessRows(lines: seq<string>)
    requires lines == ["Ana", "Bruno"]
    ensures NamesFrom(lines, 0, ',', 0) == lines
  {
    AnaRow(lines[0]);
    BrunoRow(lines[1]);
    NamesFromFirstRow(lines, 0, ',', 0);
    NamesFromFirstRow(lines, 1, ',', 0);
  }

  /** A file without a header: every line is a name, read as the first comma-separated column. */
  lemma ImportWithoutHeader()
    ensures ParseCsv("Ana\nBruno") == Imported(["Ana", "Bruno"])
  {
    var lines := ["Ana", "Bruno"];
    HeaderlessLines(lines);
    HeaderlessStart(lines);
    HeaderlessRows(lines);
  }
}
