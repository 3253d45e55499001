/** The attendance store of `src/context/AppContext.tsx`: three collections kept in memory and
    replaced by every operation. Each operation hands its collection a pure updater
    (`setAttendance(prev => ...)`); those updaters are the functions below, and the class
    `AttendanceStore` applies them to its fields. */
module Store {
  import opened Seqs
  import opened Text
  import opened Domain

  /** The updater of `toggleAttendance`: negate the student's status in the first record of
      `(classId, date)`, or append a record in which only that student is absent. */
  function Toggled(attendance: seq<AttendanceRecord>, classId: string, studentId: string, date: string): (r: seq<AttendanceRecord>)
    ensures |attendance| <= |r| <= |attendance| + 1
    ensures forall i :: 0 <= i < |attendance| ==> RecordKey(r[i]) == RecordKey(attendance[i])
  {
    match FindRecordIndex(attendance, classId, date)
    case Some(k) =>
      var record := attendance[k];
      var currentStatus := StatusOrPresent(record.records, studentId);
      attendance[k := record.(records := record.records[studentId := !currentStatus])]
    case None =>
      attendance + [AttendanceRecord(date, classId, map[studentId := false])]
  }

  /** When a record of `(classId, date)` exists, only the student's entry in the first such record
      changes, to the negation of its status read with the present default. */
  lemma ToggleExisting(attendance: seq<AttendanceRecord>, classId: string, studentId: string, date: string, k: nat)
    requires k < |attendance| && IsRecordFor(attendance[k], classId, date)
    requires forall j :: 0 <= j < k ==> !IsRecordFor(attendance[j], classId, date)
    ensures var r := Toggled(attendance, classId, studentId, date);
      && |r| == |attendance|
      && (forall j :: 0 <= j < |r| && j != k ==> r[j] == attendance[j])
      && r[k].date == date && r[k].classId == classId
      && r[k].records.Keys == attendance[k].records.Keys + {studentId}
      && r[k].records[studentId] == !StatusOrPresent(attendance[k].records, studentId)
      && (forall id :: id in attendance[k].records && id != studentId ==> r[k].records[id] == attendance[k].records[id])
  {
    match FindRecordIndex(attendance, classId, date)
    case Some(i) =>
      assert i == k;
    case None =>
  }

  /** When no record of `(classId, date)` exists, exactly one record is appended, marking only this student absent. */
  lemma ToggleMissing(attendance: seq<AttendanceRecord>, classId: string, studentId: string, date: string)
    requires forall j :: 0 <= j < |attendance| ==> !IsRecordFor(attendance[j], classId, date)
    ensures Toggled(attendance, classId, studentId, date)
              == attendance + [AttendanceRecord(date, classId, map[studentId := false])]
  {
    assert FindRecordIndex(attendance, classId, date).None?;
  }

  /** Toggling keeps at most one record per `(classId, date)`, and grows the list only when no record existed. */
  lemma TogglePreservesUniqueKeys(attendance: seq<AttendanceRecord>, classId: string, studentId: string, date: string)
    requires UniqueRecordKeys(attendance)
    ensures UniqueRecordKeys(Toggled(attendance, classId, studentId, date))
    ensures |Toggled(attendance, classId, studentId, date)|
              == |attendance| + (if FindRecord(attendance, classId, date).None? then 1 else 0)
  {
    var r := Toggled(attendance, classId, studentId, date);
    match FindRecordIndex(attendance, classId, date)
    case Some(k) =>
      assert forall j :: 0 <= j < |r| ==> RecordKey(r[j]) == RecordKey(attendance[j]);
    case None =>
      forall i, j | 0 <= i < j < |r| ensures RecordKey(r[i]) != RecordKey(r[j]) {
        if j == |attendance| {
          assert !IsRecordFor(attendance[i], classId, date);
        } else {
          assert r[i] == attendance[i] && r[j] == attendance[j];
        }
      }
  }

  /** Toggling twice restores the entry read with the present default: an explicit entry comes back
      as it was, a missing one comes back as an explicit `true`. */
  lemma {:induction false} ToggleTwice(attendance: seq<AttendanceRecord>, classId: string, studentId: string, date: string)
    ensures var twice := Toggled(Toggled(attendance, classId, studentId, date), classId, studentId, date);
      match FindRecordIndex(attendance, classId, date)
      case Some(k) =>
        twice == attendance[k := attendance[k].(records := attendance[k].records[studentId := StatusOrPresent(attendance[k].records, studentId)])]
      case None =>
        twice == attendance + [AttendanceRecord(date, classId, map[studentId := true])]
  {
    var once := Toggled(attendance, classId, studentId, date);
    match FindRecordIndex(attendance, classId, date)
    case Some(k) =>
      assert forall j :: 0 <= j < |once| ==> RecordKey(once[j]) == RecordKey(attendance[j]);
      FindRecordIndexSameKeys(once, attendance, classId, date);
      assert once[k].records[studentId := !once[k].records[studentId]]
          == attendance[k].records[studentId := StatusOrPresent(attendance[k].records, studentId)];
    case None =>
      FirstMatchIsFound(once, classId, date, |attendance|);
      var added := AttendanceRecord(date, classId, map[studentId := false]);
      assert once[|attendance|] == added;
      assert added.records[studentId := !StatusOrPresent(added.records, studentId)] == map[studentId := true];
      assert once[|attendance| := AttendanceRecord(date, classId, map[studentId := true])]
          == attendance + [AttendanceRecord(date, classId, map[studentId := true])];
  }

  /** An explicit entry survives two toggles unchanged, so the whole list does. */
  lemma ToggleTwiceIsIdentity(attendance: seq<AttendanceRecord>, classId: string, studentId: string, date: string, k: nat)
    requires FindRecordIndex(attendance, classId, date) == Some(k) && studentId in attendance[k].records
    ensures Toggled(Toggled(attendance, classId, studentId, date), classId, studentId, date) == attendance
  {
    ToggleTwice(attendance, classId, studentId, date);
    assert attendance[k].records[studentId := StatusOrPresent(attendance[k].records, studentId)] == attendance[k].records;
    assert attendance[k := attendance[k]] == attendance;
  }

  /** `deleteClass`'s updater for the classes: every class but `classId`, in their order. */
  function ClassesWithout(classes: seq<Class>, classId: string): (r: seq<Class>)
    ensures forall i :: 0 <= i < |r| ==> r[i].id != classId && r[i] in classes
    ensures forall i :: 0 <= i < |classes| && classes[i].id != classId ==> classes[i] in r
    ensures IsSubsequence(r, classes)
    ensures DistinctBy(classes, ClassKey) ==> DistinctBy(r, ClassKey)
  {
    var other := (c: Class) => c.id != classId;
    FilterIsSubsequence(classes, other);
    if DistinctBy(classes, ClassKey) then FilterDistinct(classes, other, ClassKey); Filter(classes, other)
    else Filter(classes, other)
  }

  /** `deleteClass`'s updater for the students: everyone outside class `classId`, in their order. */
  function StudentsOutside(students: seq<Student>, classId: string): (r: seq<Student>)
    ensures forall i :: 0 <= i < |r| ==> r[i].classId != classId && r[i] in students
    ensures forall i :: 0 <= i < |students| && students[i].classId != classId ==> students[i] in r
    ensures IsSubsequence(r, students)
    ensures DistinctBy(students, StudentKey) ==> DistinctBy(r, StudentKey)
  {
    var outside := (s: Student) => s.classId != classId;
    FilterIsSubsequence(students, outside);
    if DistinctBy(students, StudentKey) then FilterDistinct(students, outside, StudentKey); Filter(students, outside)
    else Filter(students, outside)
  }

  /** `deleteClass`'s updater for the attendance: every record of another class, in their order. */
  function RecordsOutside(attendance: seq<AttendanceRecord>, classId: string): (r: seq<AttendanceRecord>)
    ensures forall i :: 0 <= i < |r| ==> r[i].classId != classId && r[i] in attendance
    ensures forall i :: 0 <= i < |attendance| && attendance[i].classId != classId ==> attendance[i] in r
    ensures IsSubsequence(r, attendance)
    ensures UniqueRecordKeys(attendance) ==> UniqueRecordKeys(r)
  {
    var outside := (r: AttendanceRecord) => r.classId != classId;
    FilterIsSubsequence(attendance, outside);
    if UniqueRecordKeys(attendance) then FilterDistinct(attendance, outside, RecordKey); Filter(attendance, outside)
    else Filter(attendance, outside)
  }

  /** `deleteStudent(s)` and `deleteStudents(ids)` for the students: everyone whose id is not listed. */
  function StudentsWithout(students: seq<Student>, ids: set<string>): (r: seq<Student>)
    ensures forall i :: 0 <= i < |r| ==> r[i].id !in ids && r[i] in students
    ensures forall i :: 0 <= i < |students| && students[i].id !in ids ==> students[i] in r
    ensures IsSubsequence(r, students)
    ensures DistinctBy(students, StudentKey) ==> DistinctBy(r, StudentKey)
  {
    var unlisted := (s: Student) => s.id !in ids;
    FilterIsSubsequence(students, unlisted);
    if DistinctBy(students, StudentKey) then FilterDistinct(students, unlisted, StudentKey); Filter(students, unlisted)
    else Filter(students, unlisted)
  }

  /** `deleteStudent(s)` and `deleteStudents(ids)` for the attendance: every record stays, in place and
      with its date and class, and loses exactly the keys of the deleted students. */
  function WithoutKeys(attendance: seq<AttendanceRecord>, ids: set<string>): (r: seq<AttendanceRecord>)
    ensures |r| == |attendance|
    ensures forall j :: 0 <= j < |r| ==> r[j].date == attendance[j].date && r[j].classId == attendance[j].classId
    ensures forall j :: 0 <= j < |r| ==> r[j].records.Keys == attendance[j].records.Keys - ids
    ensures forall j, id :: 0 <= j < |r| && id in r[j].records ==> r[j].records[id] == attendance[j].records[id]
  {
    seq(|attendance|, j requires 0 <= j < |attendance| => attendance[j].(records := attendance[j].records - ids))
  }

  /** `studentIds.forEach(id => delete newRecords[id])` on a copy of one record's map. */
  method DeleteKeys(records: map<string, bool>, studentIds: seq<string>) returns (newRecords: map<string, bool>)
    ensures newRecords == records - (set id | id in studentIds)
  {
    newRecords := records;
    var i := 0;
    while i < |studentIds|
      invariant 0 <= i <= |studentIds|
      invariant newRecords == records - (set id | id in studentIds[..i])
    {
      assert studentIds[..i + 1] == studentIds[..i] + [studentIds[i]];
      newRecords := newRecords - {studentIds[i]};
      i := i + 1;
    }
    assert studentIds[..i] == studentIds;
  }

  /** Deleting students keeps at most one record per `(classId, date)`. */
  lemma WithoutKeysPreservesUniqueKeys(attendance: seq<AttendanceRecord>, ids: set<string>)
    requires UniqueRecordKeys(attendance)
    ensures UniqueRecordKeys(WithoutKeys(attendance, ids))
  {
    var r := WithoutKeys(attendance, ids);
    assert forall j :: 0 <= j < |r| ==> RecordKey(r[j]) == RecordKey(attendance[j]);
  }

  /** `deleteStudents([id])` removes exactly the student and the keys that `deleteStudent(id)` removes. */
  lemma DeleteOneIsDeleteStudent(students: seq<Student>, attendance: seq<AttendanceRecord>, studentId: string)
    ensures StudentsWithout(students, set id | id in [studentId]) == StudentsWithout(students, {studentId})
    ensures WithoutKeys(attendance, set id | id in [studentId]) == WithoutKeys(attendance, {studentId})
  {
    assert (set id | id in [studentId]) == {studentId};
  }

  /** `studentNames.map(name => ({ id, name: name.trim(), classId }))`, with the ids drawn beforehand. */
  function NewStudents(classId: string, names: seq<string>, ids: seq<string>): (r: seq<Student>)
    requires |ids| == |names|
    ensures |r| == |names|
    ensures forall i :: 0 <= i < |r| ==> r[i].classId == classId && r[i].name == Trim(names[i]) && r[i].id == ids[i]
  {
    seq(|names|, i requires 0 <= i < |names| => Student(ids[i], Trim(names[i]), classId))
  }

  /** The store: the three collections the provider keeps in memory. */
  class AttendanceStore {
    var classes: seq<Class>
    var students: seq<Student>
    var attendance: seq<AttendanceRecord>

    /** Ids are unique and there is at most one record per `(classId, date)`. */
    ghost predicate Valid()
      reads this
    {
      && DistinctBy(classes, ClassKey)
      && DistinctBy(students, StudentKey)
      && UniqueRecordKeys(attendance)
    }

    /** The state read back from browser storage (an empty list for a missing entry). */
    constructor (savedClasses: seq<Class>, savedStudents: seq<Student>, savedAttendance: seq<AttendanceRecord>)
      ensures classes == savedClasses && students == savedStudents && attendance == savedAttendance
      ensures (&& DistinctBy(savedClasses, ClassKey) && DistinctBy(savedStudents, StudentKey)
               && UniqueRecordKeys(savedAttendance)) ==> Valid()
    {
      classes := savedClasses;
      students := savedStudents;
      attendance := savedAttendance;
    }

    /** `addClass(name)`: appends one class with the name as given; `id` is the fresh identifier. */
    method AddClass(name: string, id: string)
      modifies this
      ensures classes == old(classes) + [Class(id, name)]
      ensures students == old(students) && attendance == old(attendance)
      ensures old(Valid()) && (forall c :: c in old(classes) ==> c.id != id) ==> Valid()
    {
      classes := classes + [Class(id, name)];
    }

    /** `addStudentsFromCSV(classId, names)`: appends one student per name, in order, with the name
        trimmed and no deduplication; `ids` are the fresh identifiers, one per name. */
    method AddStudentsFromCsv(classId: string, names: seq<string>, ids: seq<string>)
      requires |ids| == |names|
      modifies this
      ensures students == old(students) + NewStudents(classId, names, ids)
      ensures classes == old(classes) && attendance == old(attendance)
      ensures (&& old(Valid()) && DistinctBy(ids, Itself)
               && (forall s, id :: s in old(students) && id in ids ==> s.id != id)) ==> Valid()
    {
      var newStudents := NewStudents(classId, names, ids);
      if DistinctBy(students, StudentKey) && DistinctBy(ids, Itself)
         && (forall s, id :: s in students && id in ids ==> s.id != id) {
        AppendFreshStudents(students, newStudents, ids);
      }
      students := students + newStudents;
    }

    /** `toggleAttendance(classId, studentId, date)`. */
    method ToggleAttendance(classId: string, studentId: string, date: string)
      modifies this
      ensures attendance == Toggled(old(attendance), classId, studentId, date)
      ensures classes == old(classes) && students == old(students)
      ensures old(Valid()) ==> Valid()
    {
      if UniqueRecordKeys(attendance) {
        TogglePreservesUniqueKeys(attendance, classId, studentId, date);
      }
      attendance := Toggled(attendance, classId, studentId, date);
    }

    /** `getAttendanceForDate(classId, date)`: reads the state and changes nothing. */
    function GetAttendanceForDate(classId: string, date: string): Option<AttendanceRecord>
      reads this
    {
      FindRecord(attendance, classId, date)
    }

    /** `deleteClass(classId)`: the class, its students and its attendance records go. */
    method DeleteClass(classId: string)
      modifies this
      ensures classes == ClassesWithout(old(classes), classId)
      ensures students == StudentsOutside(old(students), classId)
      ensures attendance == RecordsOutside(old(attendance), classId)
      ensures old(Valid()) ==> Valid()
    {
      classes := ClassesWithout(classes, classId);
      students := StudentsOutside(students, classId);
      attendance := RecordsOutside(attendance, classId);
    }

    /** `deleteStudent(studentId)`: the student goes, and so does their key in every record. */
    method DeleteStudent(studentId: string)
      modifies this
      ensures students == StudentsWithout(old(students), {studentId})
      ensures attendance == WithoutKeys(old(attendance), {studentId})
      ensures classes == old(classes)
      ensures old(Valid()) ==> Valid()
    {
      if UniqueRecordKeys(attendance) {
        WithoutKeysPreservesUniqueKeys(attendance, {studentId});
      }
      students := StudentsWithout(students, {studentId});
      attendance := WithoutKeys(attendance, {studentId});
    }

    /** `deleteStudents(studentIds)`: the listed students go, and so do their keys in every record;
        `deleteStudents([id])` has the effect of `deleteStudent(id)`. */
    method DeleteStudents(studentIds: seq<string>)
      modifies this
      ensures students == StudentsWithout(old(students), set id | id in studentIds)
      ensures attendance == WithoutKeys(old(attendance), set id | id in studentIds)
      ensures classes == old(classes)
      ensures old(Valid()) ==> Valid()
    {
      var idsSet := set id | id in studentIds;
      if UniqueRecordKeys(attendance) {
        WithoutKeysPreservesUniqueKeys(attendance, idsSet);
      }
      var prev := attendance;
      var updated: seq<AttendanceRecord> := [];
      var k := 0;
      while k < |prev|
        invariant 0 <= k <= |prev|
        invariant |updated| == k
        invariant forall j :: 0 <= j < k ==> updated[j] == prev[j].(records := prev[j].records - idsSet)
        invariant unchanged(this)
      {
        var record := prev[k];
        var newRecords := DeleteKeys(record.records, studentIds);
        updated := updated + [record.(records := newRecords)];
        k := k + 1;
      }
      assert updated == WithoutKeys(prev, idsSet);
      students := StudentsWithout(students, idsSet);
      attendance := updated;
    }
  }

  /** Appending students with fresh, distinct ids keeps the student ids distinct. */
  lemma AppendFreshStudents(students: seq<Student>, newStudents: seq<Student>, ids: seq<string>)
    requires DistinctBy(students, StudentKey)
    requires |newStudents| == |ids| && forall i :: 0 <= i < |ids| ==> newStudents[i].id == ids[i]
    requires DistinctBy(ids, Itself)
    requires forall s, id :: s in students && id in ids ==> s.id != id
    ensures DistinctBy(students + newStudents, StudentKey)
  {
    var all := students + newStudents;
    forall i, j | 0 <= i < j < |all| ensures StudentKey(all[i]) != StudentKey(all[j]) {
      if j < |students| {
        assert all[i] == students[i] && all[j] == students[j];
      } else if i < |students| {
        assert all[i] in students && ids[j - |students|] in ids;
      } else {
        assert all[i].id == ids[i - |students|] && all[j].id == ids[j - |students|];
      }
    }
  }
}
