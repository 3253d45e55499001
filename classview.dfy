/** The read side of the attendance page (`src/pages/ClassPage.tsx`): how a day's record is shown
    as present or absent per student, and what a toggle does to what is shown. */
module ClassView {
  import opened Domain
  import opened Store

  /** `records[studentId]` as JavaScript reads it: `None` stands for `undefined`. */
  function Entry(records: map<string, bool>, studentId: string): Option<bool> {
    if studentId in records then Some(records[studentId]) else None
  }

  /** `getStatus(studentId)` for the day's record: present unless the record holds an explicit `false`.
      No record, a missing key and an explicit `true` all read as present. */
  function GetStatus(attendanceRecord: Option<AttendanceRecord>, studentId: string): (present: bool)
    ensures attendanceRecord.None? ==> present
    ensures !present <==> && attendanceRecord.Some?
                          && studentId in attendanceRecord.value.records
                          && !attendanceRecord.value.records[studentId]
  {
    if attendanceRecord.None? then true
    else
      var status := Entry(attendanceRecord.value.records, studentId);
      status != Some(false)
  }

  /** The page's `status !== false` and the store's `status ?? true` read every record alike. */
  lemma GetStatusIsStoredStatus(attendanceRecord: AttendanceRecord, studentId: string)
    ensures GetStatus(Some(attendanceRecord), studentId) == StatusOrPresent(attendanceRecord.records, studentId)
  {
  }

  /** An explicit `true` entry is indistinguishable from a missing key. */
  lemma ExplicitPresentIsDefault(attendanceRecord: AttendanceRecord, studentId: string)
    ensures GetStatus(Some(attendanceRecord.(records := attendanceRecord.records[studentId := true])), studentId)
         == GetStatus(Some(attendanceRecord.(records := attendanceRecord.records - {studentId})), studentId)
         == GetStatus(None, studentId)
  {
  }

  /** What the page shows for `studentId` in class `classId` on `date`. */
  function Shown(attendance: seq<AttendanceRecord>, classId: string, date: string, studentId: string): (present: bool)
    ensures (forall j :: 0 <= j < |attendance| ==> !IsRecordFor(attendance[j], classId, date)) ==> present
    ensures !present ==> exists k :: && 0 <= k < |attendance| && IsRecordFor(attendance[k], classId, date)
                                     && studentId in attendance[k].records && !attendance[k].records[studentId]
  {
    GetStatus(FindRecord(attendance, classId, date), studentId)
  }

  /** A toggle flips what the page shows for that student, class and date. */
  lemma {:induction false} ToggleFlipsShownStatus(attendance: seq<AttendanceRecord>, classId: string, studentId: string, date: string)
    ensures Shown(Toggled(attendance, classId, studentId, date), classId, date, studentId)
         == !Shown(attendance, classId, date, studentId)
  {
    var r := Toggled(attendance, classId, studentId, date);
    match FindRecordIndex(attendance, classId, date)
    case Some(k) =>
      FindRecordIndexSameKeys(r, attendance, classId, date);
      GetStatusIsStoredStatus(attendance[k], studentId);
    case None =>
      FirstMatchIsFound(r, classId, date, |attendance|);
  }

  /** A toggle leaves what the page shows for every other student, class or date as it was. */
  lemma {:induction false} ToggleKeepsOtherShownStatus(attendance: seq<AttendanceRecord>, classId: string, studentId: string, date: string,
                                                     otherClass: string, otherDate: string, otherStudent: string)
    requires (otherClass, otherDate, otherStudent) != (classId, date, studentId)
    ensures Shown(Toggled(attendance, classId, studentId, date), otherClass, otherDate, otherStudent)
         == Shown(attendance, otherClass, otherDate, otherStudent)
  {
    var r := Toggled(attendance, classId, studentId, date);
    match FindRecordIndex(attendance, classId, date)
    case Some(k) =>
      FindRecordIndexSameKeys(r, attendance, otherClass, otherDate);
    case None =>
      if (otherClass, otherDate) == (classId, date) {
        FirstMatchIsFound(r, classId, date, |attendance|);
      } else {
        FindRecordIndexAppend(attendance, AttendanceRecord(date, classId, map[studentId := false]), otherClass, otherDate);
      }
  }

  /** Toggling the same student, class and date twice restores what the page shows everywhere. */
  lemma ToggleTwiceRestoresShownStatus(attendance: seq<AttendanceRecord>, classId: string, studentId: string, date: string,
                                       anyClass: string, anyDate: string, anyStudent: string)
    ensures var twice := Toggled(Toggled(attendance, classId, studentId, date), classId, studentId, date);
      Shown(twice, anyClass, anyDate, anyStudent) == Shown(attendance, anyClass, anyDate, anyStudent)
  {
    var once := Toggled(attendance, classId, studentId, date);
    if (anyClass, anyDate, anyStudent) == (classId, date, studentId) {
      ToggleFlipsShownStatus(attendance, classId, studentId, date);
      ToggleFlipsShownStatus(once, classId, studentId, date);
    } else {
      ToggleKeepsOtherShownStatus(attendance, classId, studentId, date, anyClass, anyDate, anyStudent);
      ToggleKeepsOtherShownStatus(once, classId, studentId, date, anyClass, anyDate, anyStudent);
    }
  }

  /** A deleted student reads as present everywhere; every other student reads as before. */
  lemma {:induction false} DeletedStudentsReadPresent(attendance: seq<AttendanceRecord>, ids: set<string>,
                                                    classId: string, date: string, studentId: string)
    ensures Shown(WithoutKeys(attendance, ids), classId, date, studentId)
         == (studentId in ids || Shown(attendance, classId, date, studentId))
  {
    var r := WithoutKeys(attendance, ids);
    FindRecordIndexSameKeys(r, attendance, classId, date);
  }
}
