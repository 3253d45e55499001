/** The class tiles of `src/pages/HomePage.tsx`: a student count per class, and the tile colour
    chosen from the class name by an ordered list of rules. */
module Home {
  import opened Text
  import opened Seqs
  import opened Domain
  import opened Store

  /** `getStudentCount(classId)`: the length of the class roster. */
  function StudentCount(students: seq<Student>, classId: string): (n: nat)
    ensures n <= |students|
    ensures n == 0 <==> forall i :: 0 <= i < |students| ==> students[i].classId != classId
  {
    |StudentsOf(students, classId)|
  }

  /** Counting student by student: one more student adds one to the count of their own class only.
      With the empty roster counting zero, this fixes the count as the number of students of the class. */
  lemma StudentCountAppend(students: seq<Student>, s: Student, classId: string)
    ensures StudentCount(students + [s], classId) == StudentCount(students, classId) + (if s.classId == classId then 1 else 0)
  {
    FilterAppend(students, [s], InClass(classId));
  }

  /** Importing names into a class adds exactly that many to its count and nothing to any other class. */
  lemma StudentCountAfterImport(students: seq<Student>, classId: string, names: seq<string>, ids: seq<string>, anyClass: string)
    requires |ids| == |names|
    ensures StudentCount(students + NewStudents(classId, names, ids), anyClass)
         == StudentCount(students, anyClass) + (if anyClass == classId then |names| else 0)
  {
    var added := NewStudents(classId, names, ids);
    FilterAppend(students, added, InClass(anyClass));
    if anyClass == classId {
      FilterKeepsAll(added, InClass(anyClass));
    } else {
      FilterKeepsNone(added, InClass(anyClass));
    }
  }

  /** After its class is deleted, a class has no students left. */
  lemma StudentCountAfterDeleteClass(students: seq<Student>, classId: string)
    ensures StudentCount(StudentsOutside(students, classId), classId) == 0
  {
  }

  /** Which colour a class tile gets. */
  datatype Tile =
    | Grade(digit: char)   // one of the seven school-year colours
    | Acda
    | Fanfarra
    | Accent(index: nat)   // `accentColors[hash % 5]`
    | Unstyled             // empty name: `charCodeAt(0)` is NaN and the colour is `undefined`

  /** The order in which the year rules are tried. */
  const GradeOrder: string := "6789123"

  /** Rule N: the upper-cased name contains `Nº` or `N ` (the digit followed by a space). */
  predicate MentionsGrade(upper: string, digit: char) {
    Contains(upper, [digit, '\U{00BA}']) || Contains(upper, [digit, ' '])
  }

  /** The if/else-if chain on the upper-cased class name. */
  function ClassifyName(className: string): (t: Tile)
    ensures var upper := ToUpper(className);
      && (t.Grade? ==> t.digit in GradeOrder && MentionsGrade(upper, t.digit))
      && (t.Grade? ==> forall i, j :: 0 <= j < i < |GradeOrder| && GradeOrder[i] == t.digit ==> !MentionsGrade(upper, GradeOrder[j]))
      && (!t.Grade? ==> forall j :: 0 <= j < |GradeOrder| ==> !MentionsGrade(upper, GradeOrder[j]))
      && (t.Acda? <==> !t.Grade? && Contains(upper, "ACDA"))
      && (t.Fanfarra? <==> !t.Grade? && !Contains(upper, "ACDA") && Contains(upper, "FANFARRA"))
      && (t.Accent? ==> t.index < 5 && className != [] && t.index == (|className| + upper[0] as int) % 5)
      && (t.Unstyled? <==> className == [])
  {
    var name := ToUpper(className);
    assert GradeOrder[0] == '6' && GradeOrder[1] == '7' && GradeOrder[2] == '8' && GradeOrder[3] == '9'
        && GradeOrder[4] == '1' && GradeOrder[5] == '2' && GradeOrder[6] == '3';
    if MentionsGrade(name, '6') then Grade('6')
    else if MentionsGrade(name, '7') then Grade('7')
    else if MentionsGrade(name, '8') then Grade('8')
    else if MentionsGrade(name, '9') then Grade('9')
    else if MentionsGrade(name, '1') then Grade('1')
    else if MentionsGrade(name, '2') then Grade('2')
    else if MentionsGrade(name, '3') then Grade('3')
    else if Contains(name, "ACDA") then Acda
    else if Contains(name, "FANFARRA") then Fanfarra
    else if name == [] then Unstyled
    else
      var hash := |name| + name[0] as int;
      Accent(hash % 5)
  }

  /** The rules read the name upper-cased, so they cannot tell upper from lower case. */
  lemma ClassifyIgnoresCase(className: string)
    ensures ClassifyName(ToUpper(className)) == ClassifyName(className)
  {
    ToUpperIdempotent(className);
  }

  const AccentColors: seq<string> := [
    "var(--accent-pink)", "var(--accent-yellow)", "var(--accent-blue)", "var(--accent-green)", "var(--accent-purple)"
  ]

  /** The background colour of a tile; `None` is the `undefined` of an empty name. */
  function Background(t: Tile): (colour: Option<string>)
    requires t.Grade? ==> t.digit in GradeOrder
    requires t.Accent? ==> t.index < |AccentColors|
    ensures colour.None? <==> t.Unstyled?
    ensures t.Accent? ==> colour == Some(AccentColors[t.index])
  {
    match t
    case Grade(digit) =>
      Some(if digit == '6' then "#FFC0CB"
           else if digit == '7' then "#FFD580"
           else if digit == '8' then "#ADD8E6"
           else if digit == '9' then "#90EE90"
           else if digit == '1' then "#E6E6FA"
           else if digit == '2' then "#FFDEE9"
           else "#FFFACD")
    case Acda => Some("#E0F2F1")
    case Fanfarra => Some("#F3E5F5")
    case Accent(index) => Some(AccentColors[index])
    case Unstyled => None
  }
}
