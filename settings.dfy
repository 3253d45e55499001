/** The handlers of the settings page (`src/pages/SettingsPage.tsx`) that change the selection of
    students for bulk deletion, delete the selection, and import a CSV file into the store. */
module Settings {
  import opened Seqs
  import opened Domain
  import opened Store
  import opened CsvImport

  /** A JavaScript `Set<string>` is its contents in insertion order, with no element twice. */
  predicate NoDuplicates(s: seq<string>) {
    DistinctBy(s, Itself)
  }

  /** `set.add(x)`: appended when absent, otherwise nothing changes. */
  function SetAdd(s: seq<string>, x: string): (r: seq<string>)
    ensures forall y :: y in r <==> y in s || y == x
    ensures NoDuplicates(s) ==> NoDuplicates(r)
  {
    if x in s then s else s + [x]
  }

  function Other(x: string): string -> bool {
    (y: string) => y != x
  }

  /** `set.delete(x)`: the other elements in their order. */
  function SetDelete(s: seq<string>, x: string): (r: seq<string>)
    ensures forall y :: y in r <==> y in s && y != x
    ensures NoDuplicates(s) ==> NoDuplicates(r)
  {
    if NoDuplicates(s) then
      FilterDistinct(s, Other(x), Itself);
      Filter(s, Other(x))
    else Filter(s, Other(x))
  }

  /** `ids.forEach(id => set.add(id))`. */
  function AddAll(s: seq<string>, ids: seq<string>): (r: seq<string>)
    ensures forall y :: y in r <==> y in s || y in ids
    ensures NoDuplicates(s) ==> NoDuplicates(r)
    decreases |ids|
  {
    if ids == [] then s
    else
      assert forall y :: y in ids <==> y == ids[0] || y in ids[1..];
      AddAll(SetAdd(s, ids[0]), ids[1..])
  }

  /** `ids.forEach(id => set.delete(id))`. */
  function DeleteAll(s: seq<string>, ids: seq<string>): (r: seq<string>)
    ensures forall y :: y in r <==> y in s && y !in ids
    ensures NoDuplicates(s) ==> NoDuplicates(r)
    decreases |ids|
  {
    if ids == [] then s
    else
      assert forall y :: y in ids <==> y == ids[0] || y in ids[1..];
      DeleteAll(SetDelete(s, ids[0]), ids[1..])
  }

  /** The selection after `handleToggleSelectStudent(id)`. */
  function ToggledSelection(selected: seq<string>, id: string): seq<string> {
    if id in selected then SetDelete(selected, id) else SetAdd(selected, id)
  }

  /** Toggling flips whether `id` is selected and nothing else. */
  lemma ToggleSelectFlipsOnlyIt(selected: seq<string>, id: string, other: string)
    ensures id in ToggledSelection(selected, id) <==> id !in selected
    ensures other != id ==> (other in ToggledSelection(selected, id) <==> other in selected)
  {
  }

  /** Toggling the same id twice selects exactly what was selected before. */
  lemma ToggleSelectTwice(selected: seq<string>, id: string, any: string)
    ensures any in ToggledSelection(ToggledSelection(selected, id), id) <==> any in selected
  {
    ToggleSelectFlipsOnlyIt(selected, id, any);
    ToggleSelectFlipsOnlyIt(ToggledSelection(selected, id), id, any);
  }

  /** `classStudents.map(s => s.id)`: the ids of a class's roster, in store order. */
  function ClassStudentIds(students: seq<Student>, classId: string): (ids: seq<string>)
    ensures forall id :: id in ids <==> exists s :: s in students && s.classId == classId && s.id == id
  {
    var roster := StudentsOf(students, classId);
    var ids := seq(|roster|, i requires 0 <= i < |roster| => roster[i].id);
    assert forall id :: id in ids ==> exists s :: s in students && s.classId == classId && s.id == id by {
      forall id | id in ids ensures exists s :: s in students && s.classId == classId && s.id == id {
        var i :| 0 <= i < |ids| && ids[i] == id;
        assert roster[i] in students;
      }
    }
    assert forall s :: s in students && s.classId == classId ==> s.id in ids by {
      forall s | s in students && s.classId == classId ensures s.id in ids {
        var i :| 0 <= i < |students| && students[i] == s;
        var k :| 0 <= k < |roster| && roster[k] == s;
        assert ids[k] == s.id;
      }
    }
    ids
  }

  /** `allSelected`: the class has students and every one of them is selected. */
  predicate AllSelected(selected: seq<string>, ids: seq<string>) {
    |ids| > 0 && forall id :: id in ids ==> id in selected
  }

  /** The selection after `handleSelectAll(classId)`. */
  function SelectedAfterSelectAll(selected: seq<string>, students: seq<Student>, classId: string): seq<string> {
    var ids := ClassStudentIds(students, classId);
    if AllSelected(selected, ids) then DeleteAll(selected, ids) else AddAll(selected, ids)
  }

  /** Select-all deselects the whole class when the class is non-empty and entirely selected, and
      otherwise selects the whole class; ids of students outside the class are left as they were. */
  lemma SelectAllEffect(selected: seq<string>, students: seq<Student>, classId: string, id: string)
    ensures var ids := ClassStudentIds(students, classId);
      && (id in ids ==> (id in SelectedAfterSelectAll(selected, students, classId) <==> !AllSelected(selected, ids)))
      && (id !in ids ==> (id in SelectedAfterSelectAll(selected, students, classId) <==> id in selected))
  {
  }

  /** Pressing select-all twice leaves the class entirely selected exactly when it was entirely
      selected before, and every other id as it was (a class without students changes nothing). */
  lemma SelectAllTwice(selected: seq<string>, students: seq<Student>, classId: string, id: string)
    ensures var twice := SelectedAfterSelectAll(SelectedAfterSelectAll(selected, students, classId), students, classId);
      && (id in ClassStudentIds(students, classId) ==> (id in twice <==> AllSelected(selected, ClassStudentIds(students, classId))))
      && (id !in ClassStudentIds(students, classId) ==> (id in twice <==> id in selected))
  {
    var ids := ClassStudentIds(students, classId);
    var once := SelectedAfterSelectAll(selected, students, classId);
    if ids == [] {
    } else if AllSelected(selected, ids) {
      assert ids[0] !in once;
    } else {
      assert AllSelected(once, ids);
    }
    SelectAllEffect(selected, students, classId, id);
    SelectAllEffect(once, students, classId, id);
  }

  /** The state of the settings page that these handlers change. */
  class SettingsPage {
    /** `selectedStudentIds`, the students ticked for bulk deletion. */
    var selectedStudentIds: seq<string>
    /** `expandedClassId`: the class whose roster is open, if any. */
    var expandedClassId: Option<string>

    ghost predicate Valid()
      reads this
    {
      NoDuplicates(selectedStudentIds)
    }

    constructor ()
      ensures selectedStudentIds == [] && expandedClassId == None
      ensures Valid()
    {
      selectedStudentIds := [];
      expandedClassId := None;
    }

    /** `toggleExpandClass(id)`: opens the class, or closes it when it is the open one; either way the
        selection starts empty. */
    method ToggleExpandClass(id: string)
      modifies this
      ensures expandedClassId == if old(expandedClassId) == Some(id) then None else Some(id)
      ensures selectedStudentIds == []
      ensures Valid()
    {
      if expandedClassId == Some(id) {
        expandedClassId := None;
      } else {
        expandedClassId := Some(id);
      }
      selectedStudentIds := [];
    }

    /** `handleToggleSelectStudent(id)`. */
    method ToggleSelectStudent(id: string)
      modifies this
      ensures selectedStudentIds == ToggledSelection(old(selectedStudentIds), id)
      ensures expandedClassId == old(expandedClassId)
      ensures old(Valid()) ==> Valid()
    {
      var newSelected := selectedStudentIds;
      if id in newSelected {
        newSelected := SetDelete(newSelected, id);
      } else {
        newSelected := SetAdd(newSelected, id);
      }
      selectedStudentIds := newSelected;
    }

    /** `handleSelectAll(classId)`, with its `every` test and its `forEach` loops. */
    method SelectAll(students: seq<Student>, classId: string)
      modifies this
      ensures selectedStudentIds == SelectedAfterSelectAll(old(selectedStudentIds), students, classId)
      ensures expandedClassId == old(expandedClassId)
      ensures old(Valid()) ==> Valid()
    {
      var classStudentIds := ClassStudentIds(students, classId);
      var allSelected := |classStudentIds| > 0 && forall id :: id in classStudentIds ==> id in selectedStudentIds;
      var newSelected := selectedStudentIds;
      var k := 0;
      while k < |classStudentIds|
        invariant 0 <= k <= |classStudentIds|
        invariant allSelected ==> DeleteAll(newSelected, classStudentIds[k..]) == DeleteAll(selectedStudentIds, classStudentIds)
        invariant !allSelected ==> AddAll(newSelected, classStudentIds[k..]) == AddAll(selectedStudentIds, classStudentIds)
        invariant NoDuplicates(selectedStudentIds) ==> NoDuplicates(newSelected)
      {
        assert classStudentIds[k..][1..] == classStudentIds[k + 1..];
        if allSelected {
          newSelected := SetDelete(newSelected, classStudentIds[k]);
        } else {
          newSelected := SetAdd(newSelected, classStudentIds[k]);
        }
        k := k + 1;
      }
      selectedStudentIds := newSelected;
    }

    /** `handleBulkDelete`: nothing happens on an empty selection or when the confirmation dialog is
        declined; otherwise the selected students are deleted and the selection is cleared. */
    method BulkDelete(store: AttendanceStore, confirmed: bool)
      modifies this, store
      ensures expandedClassId == old(expandedClassId)
      ensures old(selectedStudentIds) == [] || !confirmed ==>
        && selectedStudentIds == old(selectedStudentIds)
        && store.classes == old(store.classes) && store.students == old(store.students)
        && store.attendance == old(store.attendance)
      ensures old(selectedStudentIds) != [] && confirmed ==>
        && selectedStudentIds == []
        && store.students == StudentsWithout(old(store.students), set id | id in old(selectedStudentIds))
        && store.attendance == WithoutKeys(old(store.attendance), set id | id in old(selectedStudentIds))
        && store.classes == old(store.classes)
      ensures old(store.Valid()) ==> store.Valid()
      ensures old(Valid()) ==> Valid()
    {
      if |selectedStudentIds| == 0 {
        return;
      }
      if confirmed {
        store.DeleteStudents(selectedStudentIds);
        selectedStudentIds := [];
      }
    }
  }

  /** What an upload ends in: the two form checks first, then the import itself. */
  function UploadOutcome(selectedClassId: string, csvFile: Option<string>): (outcome: ImportOutcome)
    ensures selectedClassId == [] ==> outcome == Failed(NoClassSelected)
    ensures selectedClassId != [] && csvFile.None? ==> outcome == Failed(NoFileChosen)
    ensures selectedClassId != [] && csvFile.Some? ==> outcome == ParseCsv(csvFile.value)
    ensures outcome.Imported? ==> csvFile.Some? && outcome == ParseCsv(csvFile.value)
  {
    if selectedClassId == [] then Failed(NoClassSelected)
    else if csvFile.None? then Failed(NoFileChosen)
    else ParseCsv(csvFile.value)
  }

  /** The ids drawn for an import are a prefix of the supply: still pairwise distinct, and each one
      from the supply. */
  lemma PrefixKeepsFreshIds(ids: seq<string>, k: nat)
    requires k <= |ids|
    ensures DistinctBy(ids, Itself) ==> DistinctBy(ids[..k], Itself)
    ensures forall id :: id in ids[..k] ==> id in ids
  {
    if DistinctBy(ids, Itself) {
      forall i, j | 0 <= i < j < k ensures Itself(ids[..k][i]) != Itself(ids[..k][j]) {
        assert ids[..k][i] == ids[i] && ids[..k][j] == ids[j];
      }
    }
  }

  /** `handleFileUpload`: the file's text is given; `ids` supplies the identifiers the store draws for
      new students, one per name at most. */
  method UploadCsv(store: AttendanceStore, selectedClassId: string, csvFile: Option<string>, ids: seq<string>)
    returns (outcome: ImportOutcome)
    requires csvFile.Some? ==> |ids| >= |Lines(csvFile.value)|
    modifies store
    ensures outcome == UploadOutcome(selectedClassId, csvFile)
    ensures outcome.Imported? ==> (&& |outcome.names| <= |ids|
                                   && store.students == old(store.students) + NewStudents(selectedClassId, outcome.names, ids[..|outcome.names|]))
    ensures outcome.Failed? ==> store.students == old(store.students)
    ensures store.classes == old(store.classes) && store.attendance == old(store.attendance)
    ensures (&& old(store.Valid()) && DistinctBy(ids, Itself)
             && (forall s, id :: s in old(store.students) && id in ids ==> s.id != id)) ==> store.Valid()
  {
    if selectedClassId == [] {
      return Failed(NoClassSelected);
    }
    if csvFile.None? {
      return Failed(NoFileChosen);
    }
    outcome := ParseNames(csvFile.value);
    if outcome.Imported? {
      PrefixKeepsFreshIds(ids, |outcome.names|);
      store.AddStudentsFromCsv(selectedClassId, outcome.names, ids[..|outcome.names|]);
    }
  }
}
