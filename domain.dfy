/** The entities the application stores (`src/types/index.ts`) and the lookups every page shares. */
module Domain {
  import opened Seqs

  datatype Option<T> = None | Some(value: T)

  datatype Class = Class(id: string, name: string)

  datatype Student = Student(id: string, name: string, classId: string)

  /** One day of one class. `records` is sparse: a student without a key is present. */
  datatype AttendanceRecord = AttendanceRecord(date: string, classId: string, records: map<string, bool>)

  function ClassKey(c: Class): string { c.id }

  function StudentKey(s: Student): string { s.id }

  /** The pair an attendance record is looked up by. */
  function RecordKey(r: AttendanceRecord): (string, string) { (r.classId, r.date) }

  predicate IsRecordFor(r: AttendanceRecord, classId: string, date: string) {
    r.classId == classId && r.date == date
  }

  /** At most one record per `(classId, date)`. */
  predicate UniqueRecordKeys(attendance: seq<AttendanceRecord>) {
    DistinctBy(attendance, RecordKey)
  }

  /** `findIndex` for the record of `(classId, date)`: the first matching position, `None` for -1. */
  function FindRecordIndex(attendance: seq<AttendanceRecord>, classId: string, date: string): (r: Option<nat>)
    ensures r.Some? ==> r.value < |attendance| && IsRecordFor(attendance[r.value], classId, date)
    ensures r.Some? ==> forall j :: 0 <= j < r.value ==> !IsRecordFor(attendance[j], classId, date)
    ensures r.None? ==> forall j :: 0 <= j < |attendance| ==> !IsRecordFor(attendance[j], classId, date)
  {
    if attendance == [] then None
    else if IsRecordFor(attendance[0], classId, date) then Some(0)
    else match FindRecordIndex(attendance[1..], classId, date)
      case None => None
      case Some(k) => Some(k + 1)
  }

  /** `find` for the record of `(classId, date)`: the first match, or nothing when no record matches. */
  function FindRecord(attendance: seq<AttendanceRecord>, classId: string, date: string): (r: Option<AttendanceRecord>)
    ensures r.None? <==> forall j :: 0 <= j < |attendance| ==> !IsRecordFor(attendance[j], classId, date)
    ensures r.Some? ==> exists k :: 0 <= k < |attendance| && attendance[k] == r.value
                          && IsRecordFor(r.value, classId, date)
                          && forall j :: 0 <= j < k ==> !IsRecordFor(attendance[j], classId, date)
  {
    match FindRecordIndex(attendance, classId, date)
    case Some(k) => Some(attendance[k])
    case None => None
  }

  /** With unique keys, the lookup of a record's own key finds that very record. */
  lemma FindRecordOfUnique(attendance: seq<AttendanceRecord>, k: nat)
    requires UniqueRecordKeys(attendance) && k < |attendance|
    ensures FindRecord(attendance, attendance[k].classId, attendance[k].date) == Some(attendance[k])
  {
    var i := FindRecordIndex(attendance, attendance[k].classId, attendance[k].date);
    assert RecordKey(attendance[i.value]) == RecordKey(attendance[k]);
  }

  /** `records[studentId] ?? true`: a missing key reads as present. */
  function StatusOrPresent(records: map<string, bool>, studentId: string): (present: bool)
    ensures studentId !in records ==> present
    ensures !present <==> studentId in records && !records[studentId]
  {
    if studentId in records then records[studentId] else true
  }

  /** The test `s => s.classId === classId`. */
  function InClass(classId: string): Student -> bool {
    (s: Student) => s.classId == classId
  }

  /** `students.filter(s => s.classId === classId)`: the roster of a class, in store order. */
  function StudentsOf(students: seq<Student>, classId: string): (r: seq<Student>)
    ensures forall i :: 0 <= i < |r| ==> r[i].classId == classId && r[i] in students
    ensures forall i :: 0 <= i < |students| && students[i].classId == classId ==> students[i] in r
    ensures IsSubsequence(r, students)
    ensures forall x :: multiset(r)[x] == if x.classId == classId then multiset(students)[x] else 0
  {
    FilterIsSubsequence(students, InClass(classId));
    Filter(students, InClass(classId))
  }

  /** `FindRecordIndex` is determined by its contract: a first match is what it finds. */
  lemma FirstMatchIsFound(attendance: seq<AttendanceRecord>, classId: string, date: string, k: nat)
    requires k < |attendance| && IsRecordFor(attendance[k], classId, date)
    requires forall j :: 0 <= j < k ==> !IsRecordFor(attendance[j], classId, date)
    ensures FindRecordIndex(attendance, classId, date) == Some(k)
  {
  }

  /** The lookup sees only the `(classId, date)` keys: two lists with the same keys at the same
      positions give the same answer. */
  lemma FindRecordIndexSameKeys(a: seq<AttendanceRecord>, b: seq<AttendanceRecord>, classId: string, date: string)
    requires |a| == |b| && forall j :: 0 <= j < |a| ==> RecordKey(a[j]) == RecordKey(b[j])
    ensures FindRecordIndex(a, classId, date) == FindRecordIndex(b, classId, date)
  {
    assert forall j :: 0 <= j < |a| ==> (IsRecordFor(a[j], classId, date) <==> IsRecordFor(b[j], classId, date));
    var r := FindRecordIndex(a, classId, date);
    if r.Some? {
      FirstMatchIsFound(b, classId, date, r.value);
    }
  }

  /** Appending a record never changes the answer for a key that was already present, nor for a key
      the new record does not carry. */
  lemma FindRecordIndexAppend(attendance: seq<AttendanceRecord>, extra: AttendanceRecord, classId: string, date: string)
    requires FindRecordIndex(attendance, classId, date).Some? || !IsRecordFor(extra, classId, date)
    ensures FindRecordIndex(attendance + [extra], classId, date) == FindRecordIndex(attendance, classId, date)
  {
    var all := attendance + [extra];
    match FindRecordIndex(attendance, classId, date)
    case Some(k) =>
      FirstMatchIsFound(all, classId, date, k);
    case None =>
      assert forall j :: 0 <= j < |all| ==> !IsRecordFor(all[j], classId, date) by {
        forall j | 0 <= j < |all| ensures !IsRecordFor(all[j], classId, date) {
          if j < |attendance| { assert all[j] == attendance[j]; }
        }
      }
  }
}
