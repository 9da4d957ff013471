/**
 * The application state controller: the subject list, the transient selection
 * state, and the handlers that write to the store and then re-fetch the list.
 */
module App {
  import opened Types
  import opened Store

  /**
   * The counter fields written after an attendance mark, computed from the
   * snapshot of the subject the controller holds (not from the stored document).
   */
  function CounterPatch(snapshot: Subject, attended: bool): (p: Patch)
    ensures p.Counts?
    ensures p.totalClasses == snapshot.totalClasses + 1
    ensures p.attendedClasses == snapshot.attendedClasses + 1 <==> attended
    ensures !attended ==> p.attendedClasses == snapshot.attendedClasses
    ensures SubjectValid(snapshot) ==> CountsValid(p.attendedClasses, p.totalClasses)
  {
    Counts(
      if attended then snapshot.attendedClasses + 1 else snapshot.attendedClasses,
      snapshot.totalClasses + 1)
  }

  /** The held snapshot of a subject matches the counters in the store. */
  predicate SnapshotCurrent(db: Db, s: Subject)
  {
    s.id in db.subjects
    && db.subjects[s.id].totalClasses == s.totalClasses
    && db.subjects[s.id].attendedClasses == s.attendedClasses
  }

  /**
   * Both writes of an attendance mark, from a current snapshot, keep every
   * subject's counters in agreement with its log.
   */
  lemma RecordKeepsLogConsistent(db: Db, s: Subject, e: ClassEntry)
    requires LogConsistent(db) && SnapshotCurrent(db, s) && e.subjectId == s.id
    ensures UpdateDoc(AddEntry(db, e), s.id, CounterPatch(s, e.attended)).Some?
    ensures LogConsistent(UpdateDoc(AddEntry(db, e), s.id, CounterPatch(s, e.attended)).value)
  {
    var mid := AddEntry(db, e);
    var after := UpdateDoc(mid, s.id, CounterPatch(s, e.attended)).value;
    assert mid.attendance == db.attendance + [e];
    forall id | id in after.subjects
      ensures after.subjects[id].totalClasses == |EntriesFor(after.attendance, id)|
      ensures after.subjects[id].attendedClasses == CountAttended(EntriesFor(after.attendance, id))
    {
      EntriesForAppend(db.attendance, e, id);
      if id == s.id {
        CountAttendedAppend(EntriesFor(db.attendance, id), e);
      }
    }
  }

  /**
   * When the entry is written but the counter update fails, the subject's
   * counters no longer agree with its log (there is no rollback).
   */
  lemma PartialRecordBreaksLog(db: Db, s: Subject, e: ClassEntry)
    requires LogConsistent(db) && s.id in db.subjects && e.subjectId == s.id
    ensures !LogConsistent(AddEntry(db, e))
  {
    var mid := AddEntry(db, e);
    assert mid.attendance == db.attendance + [e];
    EntriesForAppend(db.attendance, e, s.id);
    assert |EntriesFor(mid.attendance, s.id)| == mid.subjects[s.id].totalClasses + 1;
  }

  /**
   * A mark recorded from a snapshot that lags behind the store (for instance
   * after a failed re-fetch) writes a total lower than the subject's log count:
   * the earlier increment is lost.
   */
  lemma StaleSnapshotLosesIncrement(db: Db, s: Subject, e: ClassEntry)
    requires LogConsistent(db) && s.id in db.subjects && e.subjectId == s.id
    requires s.totalClasses < db.subjects[s.id].totalClasses
    ensures UpdateDoc(AddEntry(db, e), s.id, CounterPatch(s, e.attended)).Some?
    ensures !LogConsistent(UpdateDoc(AddEntry(db, e), s.id, CounterPatch(s, e.attended)).value)
  {
    var mid := AddEntry(db, e);
    var after := UpdateDoc(mid, s.id, CounterPatch(s, e.attended)).value;
    assert mid.attendance == db.attendance + [e];
    EntriesForAppend(db.attendance, e, s.id);
    assert after.subjects[s.id].totalClasses < |EntriesFor(after.attendance, s.id)|;
  }

  /** Adding a subject under a never-used id keeps the log consistent. */
  lemma AddKeepsLogConsistent(db: Db, id: string, d: SubjectDoc)
    requires LogConsistent(db) && Fresh(db, id)
    requires d.totalClasses == 0 && d.attendedClasses == 0
    ensures LogConsistent(AddDoc(db, id, d))
  {
    EntriesForUnused(db.attendance, id);
  }

  /** A name and schedule edit leaves every counter pair as it was. */
  lemma EditKeepsCountsValid(db: Db, id: string, name: string, schedule: seq<ClassSchedule>)
    requires AllCountsValid(db) && id in db.subjects
    ensures AllCountsValid(UpdateDoc(db, id, Details(name, schedule)).value)
  {
  }

  /** Editing name and schedule leaves the counters, and so their agreement with the log, alone. */
  lemma EditKeepsLogConsistent(db: Db, id: string, name: string, schedule: seq<ClassSchedule>)
    requires LogConsistent(db) && id in db.subjects
    ensures UpdateDoc(db, id, Details(name, schedule)).Some?
    ensures LogConsistent(UpdateDoc(db, id, Details(name, schedule)).value)
  {
    var after := UpdateDoc(db, id, Details(name, schedule)).value;
    forall k | k in after.subjects
      ensures after.subjects[k].totalClasses == |EntriesFor(after.attendance, k)|
      ensures after.subjects[k].attendedClasses == CountAttended(EntriesFor(after.attendance, k))
    {
      assert after.subjects[k].totalClasses == db.subjects[k].totalClasses;
      assert after.subjects[k].attendedClasses == db.subjects[k].attendedClasses;
    }
  }

  /** The value of `viewingHistory`: a subject and its fetched entries. */
  datatype History = History(subject: Subject, entries: seq<ClassEntry>)

  class Controller {
    /** The in-memory stand-in for the remote document store. */
    var db: Db
    var subjects: seq<Subject>
    var selectedSubject: Option<Subject>
    var showAddSubject: bool
    var editingSubject: Option<Subject>
    var loading: bool
    var viewingHistory: Option<History>

    /** Every counter pair the controller can write or display keeps 0 <= attended <= total. */
    ghost predicate Valid()
      reads this
    {
      && AllCountsValid(db)
      && (forall i :: 0 <= i < |subjects| ==> SubjectValid(subjects[i]))
      && (selectedSubject.Some? ==> SubjectValid(selectedSubject.value))
    }

    constructor (store: Db)
      requires AllCountsValid(store)
      ensures Valid()
      ensures db == store && subjects == [] && selectedSubject == None && !showAddSubject
      ensures editingSubject == None && loading && viewingHistory == None
    {
      db := store;
      subjects := [];
      selectedSubject := None;
      showAddSubject := false;
      editingSubject := None;
      loading := true;
      viewingHistory := None;
    }

    /** Re-read the subject list; `loading` is cleared whether or not the read succeeds. */
    method FetchSubjects(ok: bool)
      requires Valid()
      modifies this
      ensures Valid() && !loading
      ensures ok ==> IsListing(subjects, db)
      ensures !ok ==> subjects == old(subjects)
      ensures db == old(db) && selectedSubject == old(selectedSubject)
      ensures showAddSubject == old(showAddSubject) && editingSubject == old(editingSubject)
      ensures viewingHistory == old(viewingHistory)
    {
      if ok {
        var list := ListSubjects(db);
        ListingValid(list, db);
        subjects := list;
      }
      loading := false;
    }

    /**
     * Store a new subject with both counters 0 under the id the store assigns;
     * on success hide the add form and re-fetch.
     */
    method AddSubject(name: string, schedule: seq<ClassSchedule>, newId: string, createdAt: string,
                      reachable: bool, fetchOk: bool)
      requires Valid() && newId !in db.subjects
      modifies this
      ensures Valid()
      ensures reachable ==>
        && db == AddDoc(old(db), newId, SubjectDoc(name, schedule, 0, 0, createdAt))
        && !showAddSubject && !loading
        && (fetchOk ==> IsListing(subjects, db))
        && (!fetchOk ==> subjects == old(subjects))
      ensures reachable && old(Fresh(db, newId)) && old(LogConsistent(db)) ==> LogConsistent(db)
      ensures !reachable ==>
        db == old(db) && subjects == old(subjects) && showAddSubject == old(showAddSubject)
        && loading == old(loading)
      ensures selectedSubject == old(selectedSubject) && editingSubject == old(editingSubject)
      ensures viewingHistory == old(viewingHistory)
    {
      if !reachable {
        return;
      }
      var d := SubjectDoc(name, schedule, 0, 0, createdAt);
      if Fresh(db, newId) && LogConsistent(db) {
        AddKeepsLogConsistent(db, newId, d);
      }
      db := AddDoc(db, newId, d);
      showAddSubject := false;
      FetchSubjects(fetchOk);
    }

    /**
     * Write a new name and schedule to an existing subject; on success close the
     * edit form and re-fetch. A missing subject is a failed update.
     */
    method EditSubject(id: string, name: string, schedule: seq<ClassSchedule>,
                       reachable: bool, fetchOk: bool)
      requires Valid()
      modifies this
      ensures Valid()
      ensures reachable && id in old(db.subjects) ==>
        db == UpdateDoc(old(db), id, Details(name, schedule)).value
      ensures reachable && id in old(db.subjects) ==>
        && editingSubject == None && !loading
        && (fetchOk ==> IsListing(subjects, db))
        && (!fetchOk ==> subjects == old(subjects))
      ensures !(reachable && id in old(db.subjects)) ==>
        db == old(db) && subjects == old(subjects) && editingSubject == old(editingSubject)
        && loading == old(loading)
      ensures old(LogConsistent(db)) ==> LogConsistent(db)
      ensures selectedSubject == old(selectedSubject) && showAddSubject == old(showAddSubject)
      ensures viewingHistory == old(viewingHistory)
    {
      if reachable && id in db.subjects {
        SaveEdit(id, name, schedule, fetchOk);
      }
    }

    /** A successful edit: only the subject's name and schedule change, then the form closes and the list is re-read. */
    method SaveEdit(id: string, name: string, schedule: seq<ClassSchedule>, fetchOk: bool)
      requires Valid() && id in db.subjects
      modifies this
      ensures Valid()
      ensures UpdateDoc(old(db), id, Details(name, schedule)).Some?
      ensures db == UpdateDoc(old(db), id, Details(name, schedule)).value
      ensures editingSubject == None && !loading
      ensures fetchOk ==> IsListing(subjects, db)
      ensures !fetchOk ==> subjects == old(subjects)
      ensures old(LogConsistent(db)) ==> LogConsistent(db)
      ensures selectedSubject == old(selectedSubject) && showAddSubject == old(showAddSubject)
      ensures viewingHistory == old(viewingHistory)
    {
      EditKeepsCountsValid(db, id, name, schedule);
      if LogConsistent(db) {
        EditKeepsLogConsistent(db, id, name, schedule);
      }
      db := UpdateDoc(db, id, Details(name, schedule)).value;
      editingSubject := None;
      FetchSubjects(fetchOk);
    }

    /**
     * Record an attendance mark for the selected subject: append the entry, then
     * write the counters computed from the held snapshot, then clear the selection
     * and re-fetch. With nothing selected it does nothing. A failed first write
     * changes nothing; a failed second write leaves the entry in place.
     */
    method AttendanceSubmit(attended: bool, notes: string, entryId: string, date: string, now: int,
                            insertOk: bool, updateReachable: bool, fetchOk: bool)
      requires Valid()
      modifies this
      ensures Valid()
      ensures old(selectedSubject).None? || !insertOk ==>
        db == old(db) && subjects == old(subjects) && selectedSubject == old(selectedSubject)
        && loading == old(loading)
      ensures old(selectedSubject).Some? && insertOk ==>
        var s := old(selectedSubject).value;
        var logged := AddEntry(old(db), ClassEntry(entryId, s.id, date, attended, notes, now));
        var counted := UpdateDoc(logged, s.id, CounterPatch(s, attended));
        && (updateReachable && counted.Some? ==>
              && db == counted.value && selectedSubject == None && !loading
              && (fetchOk ==> IsListing(subjects, db))
              && (!fetchOk ==> subjects == old(subjects)))
        && (!(updateReachable && counted.Some?) ==>
              && db == logged && subjects == old(subjects)
              && selectedSubject == old(selectedSubject) && loading == old(loading))
      ensures old(selectedSubject).Some? && insertOk && updateReachable
              && old(LogConsistent(db)) && old(SnapshotCurrent(db, selectedSubject.value)) ==>
        LogConsistent(db)
      ensures showAddSubject == old(showAddSubject) && editingSubject == old(editingSubject)
      ensures viewingHistory == old(viewingHistory)
    {
      if selectedSubject.None? {
        return;
      }
      var s := selectedSubject.value;
      if !insertOk {
        return;
      }
      var e := ClassEntry(entryId, s.id, date, attended, notes, now);
      if LogConsistent(db) && SnapshotCurrent(db, s) {
        RecordKeepsLogConsistent(db, s, e);
      }
      db := AddEntry(db, e);
      WriteCounters(s, attended, updateReachable, fetchOk);
    }

    /**
     * The second write of an attendance mark: the counters from `snapshot`; on
     * success the selection is cleared and the list re-fetched.
     */
    method WriteCounters(snapshot: Subject, attended: bool, reachable: bool, fetchOk: bool)
      requires Valid() && SubjectValid(snapshot)
      modifies this
      ensures Valid()
      ensures var counted := UpdateDoc(old(db), snapshot.id, CounterPatch(snapshot, attended));
        && (reachable && counted.Some? ==>
              && db == counted.value && selectedSubject == None && !loading
              && (fetchOk ==> IsListing(subjects, db))
              && (!fetchOk ==> subjects == old(subjects)))
        && (!(reachable && counted.Some?) ==>
              && db == old(db) && subjects == old(subjects)
              && selectedSubject == old(selectedSubject) && loading == old(loading))
      ensures showAddSubject == old(showAddSubject) && editingSubject == old(editingSubject)
      ensures viewingHistory == old(viewingHistory)
    {
      var p := CounterPatch(snapshot, attended);
      var r := if reachable then UpdateDoc(db, snapshot.id, p) else None;
      if r.None? {
        return;
      }
      assert DocValid(Apply(db.subjects[snapshot.id], p));
      db := r.value;
      selectedSubject := None;
      FetchSubjects(fetchOk);
    }

    /**
     * Delete a subject after the user confirms, then re-fetch. Its attendance
     * entries stay in the store, and the selection state is not touched.
     */
    method DeleteSubject(id: string, confirmed: bool, reachable: bool, fetchOk: bool)
      requires Valid()
      modifies this
      ensures Valid()
      ensures confirmed && reachable ==>
        && db == DeleteDoc(old(db), id)
        && !loading
        && (fetchOk ==> IsListing(subjects, db))
        && (!fetchOk ==> subjects == old(subjects))
      ensures !(confirmed && reachable) ==>
        db == old(db) && subjects == old(subjects) && loading == old(loading)
      ensures selectedSubject == old(selectedSubject) && showAddSubject == old(showAddSubject)
      ensures editingSubject == old(editingSubject) && viewingHistory == old(viewingHistory)
    {
      if !confirmed {
        return;
      }
      if !reachable {
        return;
      }
      db := DeleteDoc(db, id);
      FetchSubjects(fetchOk);
    }

    /** Fetch the entries recorded for a subject and open the history view on them. */
    method ViewHistory(subject: Subject, ok: bool)
      modifies this
      ensures ok ==> viewingHistory == Some(History(subject, EntriesFor(db.attendance, subject.id)))
      ensures !ok ==> viewingHistory == old(viewingHistory)
      ensures db == old(db) && subjects == old(subjects) && selectedSubject == old(selectedSubject)
      ensures showAddSubject == old(showAddSubject) && editingSubject == old(editingSubject)
      ensures loading == old(loading)
    {
      if ok {
        viewingHistory := Some(History(subject, EntriesFor(db.attendance, subject.id)));
      }
    }

    /** The header's "Add Subject" button and the add form's close action. */
    method SetShowAddSubject(show: bool)
      modifies this`showAddSubject
      ensures showAddSubject == show
    {
      showAddSubject := show;
    }

    /** A card's attendance intent selects its subject; the form's cancel clears it. */
    method SetSelectedSubject(s: Option<Subject>)
      requires Valid()
      requires s.Some? ==> s.value in subjects
      modifies this`selectedSubject
      ensures Valid() && selectedSubject == s
    {
      selectedSubject := s;
    }

    /** A card's edit intent opens the edit form on its subject; closing it clears it. */
    method SetEditingSubject(s: Option<Subject>)
      modifies this`editingSubject
      ensures editingSubject == s
    {
      editingSubject := s;
    }

    /** Closing the history view. */
    method CloseHistory()
      modifies this`viewingHistory
      ensures viewingHistory == None
    {
      viewingHistory := None;
    }
  }

  /**
   * The worked scenario: a new subject, then a present mark and an absent mark,
   * each computed from the then-current counters.
   */
  lemma MathScenario(id: string, slot: ClassSchedule, e1: ClassEntry, e2: ClassEntry)
    requires e1.subjectId == id && e1.attended && e2.subjectId == id && !e2.attended
    ensures var db0 := AddDoc(Db(map[], []), id, SubjectDoc("Math", [slot], 0, 0, ""));
      && db0.subjects[id].totalClasses == 0 && db0.subjects[id].attendedClasses == 0
      && var s0 := SubjectOf(id, db0.subjects[id]);
      && UpdateDoc(AddEntry(db0, e1), id, CounterPatch(s0, true)).Some?
      && var db1 := UpdateDoc(AddEntry(db0, e1), id, CounterPatch(s0, true)).value;
      && db1.subjects[id].totalClasses == 1 && db1.subjects[id].attendedClasses == 1
      && |EntriesFor(db1.attendance, id)| == 1
      && var s1 := SubjectOf(id, db1.subjects[id]);
      && UpdateDoc(AddEntry(db1, e2), id, CounterPatch(s1, false)).Some?
      && var db2 := UpdateDoc(AddEntry(db1, e2), id, CounterPatch(s1, false)).value;
      && db2.subjects[id].totalClasses == 2 && db2.subjects[id].attendedClasses == 1
  {
    var db0 := AddDoc(Db(map[], []), id, SubjectDoc("Math", [slot], 0, 0, ""));
    assert LogConsistent(db0) by { EntriesForUnused([], id); }
    RecordKeepsLogConsistent(db0, SubjectOf(id, db0.subjects[id]), e1);
  }
}
