/**
 * An in-memory stand-in for the two document collections the app uses:
 * `subjects` (documents keyed by a store-assigned id) and `attendance`
 * (an append-only log of entries). Each function is one store primitive;
 * whether a call reaches the store at all is decided by the caller.
 */
module Store {
  import opened Types

  /** A document of the `subjects` collection; its id is the key it is stored under. */
  datatype SubjectDoc = SubjectDoc(
    name: string,
    schedule: seq<ClassSchedule>,
    totalClasses: int,
    attendedClasses: int,
    createdAt: string)

  /** A partial update of a subject document: the two field groups the app writes. */
  datatype Patch =
    | Details(name: string, schedule: seq<ClassSchedule>)
    | Counts(attendedClasses: int, totalClasses: int)

  datatype Db = Db(subjects: map<string, SubjectDoc>, attendance: seq<ClassEntry>)

  predicate DocValid(d: SubjectDoc)
  {
    CountsValid(d.attendedClasses, d.totalClasses)
  }

  /** Every stored subject keeps 0 <= attendedClasses <= totalClasses. */
  predicate AllCountsValid(db: Db)
  {
    forall id :: id in db.subjects ==> DocValid(db.subjects[id])
  }

  /** An id the store has never used: no subject has it and no entry refers to it. */
  predicate Fresh(db: Db, id: string)
  {
    id !in db.subjects && forall i :: 0 <= i < |db.attendance| ==> db.attendance[i].subjectId != id
  }

  /** A partial update writes exactly the fields it names. */
  function Apply(d: SubjectDoc, p: Patch): (r: SubjectDoc)
    ensures r.createdAt == d.createdAt
    ensures p.Details? ==>
      r == SubjectDoc(p.name, p.schedule, d.totalClasses, d.attendedClasses, d.createdAt)
    ensures p.Counts? ==>
      r == SubjectDoc(d.name, d.schedule, p.totalClasses, p.attendedClasses, d.createdAt)
  {
    match p
    case Details(n, s) => d.(name := n, schedule := s)
    case Counts(a, t) => d.(attendedClasses := a, totalClasses := t)
  }

  /** Insert a subject document under a new id. */
  function AddDoc(db: Db, id: string, d: SubjectDoc): (r: Db)
    requires id !in db.subjects
    ensures r.subjects.Keys == db.subjects.Keys + {id}
    ensures r.subjects[id] == d
    ensures forall k :: k in db.subjects ==> r.subjects[k] == db.subjects[k]
    ensures r.attendance == db.attendance
  {
    db.(subjects := db.subjects[id := d])
  }

  /** Partial update by id; a missing document is an error (None). */
  function UpdateDoc(db: Db, id: string, p: Patch): (r: Option<Db>)
    ensures r.Some? <==> id in db.subjects
    ensures r.Some? ==>
      && r.value.subjects.Keys == db.subjects.Keys
      && r.value.subjects[id] == Apply(db.subjects[id], p)
      && (forall k :: k in db.subjects && k != id ==> r.value.subjects[k] == db.subjects[k])
      && r.value.attendance == db.attendance
  {
    if id in db.subjects then Some(db.(subjects := db.subjects[id := Apply(db.subjects[id], p)]))
    else None
  }

  /** Delete by id; deleting a missing id succeeds and changes nothing. Entries are kept. */
  function DeleteDoc(db: Db, id: string): (r: Db)
    ensures r.subjects.Keys == db.subjects.Keys - {id}
    ensures forall k :: k in r.subjects ==> r.subjects[k] == db.subjects[k]
    ensures id !in db.subjects ==> r == db
    ensures r.attendance == db.attendance
  {
    db.(subjects := db.subjects - {id})
  }

  /** Insert into the attendance collection. */
  function AddEntry(db: Db, e: ClassEntry): (r: Db)
    ensures r.subjects == db.subjects
    ensures |r.attendance| == |db.attendance| + 1
    ensures r.attendance[..|db.attendance|] == db.attendance
    ensures r.attendance[|db.attendance|] == e
  {
    db.(attendance := db.attendance + [e])
  }

  /** The query `where subjectId == id` over the attendance log, in log order. */
  function EntriesFor(log: seq<ClassEntry>, id: string): (r: seq<ClassEntry>)
    ensures |r| <= |log|
    ensures forall i :: 0 <= i < |r| ==> r[i].subjectId == id && r[i] in log
    ensures forall i :: 0 <= i < |log| && log[i].subjectId == id ==> log[i] in r
  {
    if log == [] then []
    else
      var init := log[..|log| - 1];
      var rest := EntriesFor(init, id);
      assert forall i :: 0 <= i < |init| ==> init[i] == log[i];
      if log[|log| - 1].subjectId == id then rest + [log[|log| - 1]] else rest
  }

  /** The query returns every entry with that subject id as often as the log holds it, and no other. */
  lemma {:induction false} EntriesForMultiset(log: seq<ClassEntry>, id: string)
    ensures forall x :: multiset(EntriesFor(log, id))[x] == if x.subjectId == id then multiset(log)[x] else 0
  {
    if log != [] {
      var init := log[..|log| - 1];
      var last := log[|log| - 1];
      EntriesForMultiset(init, id);
      assert log == init + [last];
      assert multiset(log) == multiset(init) + multiset{last};
      if last.subjectId == id {
        assert EntriesFor(log, id) == EntriesFor(init, id) + [last];
        assert multiset(EntriesFor(log, id)) == multiset(EntriesFor(init, id)) + multiset{last};
      } else {
        assert EntriesFor(log, id) == EntriesFor(init, id);
      }
    }
  }

  /** The number of entries that record presence. */
  function CountAttended(entries: seq<ClassEntry>): (n: nat)
    ensures n <= |entries|
  {
    if entries == [] then 0
    else CountAttended(entries[..|entries| - 1]) + (if entries[|entries| - 1].attended then 1 else 0)
  }

  lemma EntriesForAppend(log: seq<ClassEntry>, e: ClassEntry, id: string)
    ensures EntriesFor(log + [e], id) == if e.subjectId == id then EntriesFor(log, id) + [e] else EntriesFor(log, id)
  {
    assert (log + [e])[..|log|] == log;
  }

  lemma CountAttendedAppend(entries: seq<ClassEntry>, e: ClassEntry)
    ensures CountAttended(entries + [e]) == CountAttended(entries) + (if e.attended then 1 else 0)
  {
    assert (entries + [e])[..|entries|] == entries;
  }

  /** No entry refers to `id`, so the query for it is empty. */
  lemma {:induction false} EntriesForUnused(log: seq<ClassEntry>, id: string)
    requires forall i :: 0 <= i < |log| ==> log[i].subjectId != id
    ensures EntriesFor(log, id) == []
  {
    if log != [] {
      var init := log[..|log| - 1];
      assert forall i :: 0 <= i < |init| ==> init[i] == log[i];
      EntriesForUnused(init, id);
    }
  }

  /**
   * The summary counters of every stored subject agree with its log: totalClasses
   * is the number of its entries and attendedClasses the number that record presence.
   */
  predicate LogConsistent(db: Db)
  {
    forall id :: id in db.subjects ==>
      && db.subjects[id].totalClasses == |EntriesFor(db.attendance, id)|
      && db.subjects[id].attendedClasses == CountAttended(EntriesFor(db.attendance, id))
  }

  /** The `{id: doc.id, ...doc.data()}` mapping of a fetched document. */
  function SubjectOf(id: string, d: SubjectDoc): (s: Subject)
  {
    Subject(id, d.name, d.schedule, d.totalClasses, d.attendedClasses)
  }

  function Ids(list: seq<Subject>): (ids: set<string>)
  {
    set i | 0 <= i < |list| :: list[i].id
  }

  /**
   * `list` is what fetching the whole `subjects` collection can return: every stored
   * document exactly once, in some order, each mapped to a Subject carrying its id.
   */
  predicate IsListing(list: seq<Subject>, db: Db)
  {
    && |list| == |db.subjects|
    && Ids(list) == db.subjects.Keys
    && (forall i, j :: 0 <= i < j < |list| ==> list[i].id != list[j].id)
    && (forall i :: 0 <= i < |list| ==>
          list[i].id in db.subjects && list[i] == SubjectOf(list[i].id, db.subjects[list[i].id]))
  }

  /** A listing of a store whose counters are valid holds only valid subjects. */
  lemma ListingValid(list: seq<Subject>, db: Db)
    requires IsListing(list, db) && AllCountsValid(db)
    ensures forall i :: 0 <= i < |list| ==> SubjectValid(list[i])
  {
    forall i | 0 <= i < |list| ensures SubjectValid(list[i]) {
      assert DocValid(db.subjects[list[i].id]);
    }
  }

  lemma IdsAppend(list: seq<Subject>, s: Subject)
    ensures Ids(list + [s]) == Ids(list) + {s.id}
  {
    var next := list + [s];
    forall x | x in Ids(next) ensures x in Ids(list) + {s.id} {
      var i :| 0 <= i < |next| && next[i].id == x;
      if i < |list| { assert list[i].id == x; }
    }
    forall x | x in Ids(list) + {s.id} ensures x in Ids(next) {
      if x == s.id {
        assert next[|list|].id == x;
      } else {
        var i :| 0 <= i < |list| && list[i].id == x;
        assert next[i].id == x;
      }
    }
  }

  /** The loop state of ListSubjects: `list` lists the stored documents not in `remaining`. */
  predicate PartialListing(list: seq<Subject>, remaining: set<string>, db: Db)
  {
    && remaining <= db.subjects.Keys
    && Ids(list) !! remaining
    && Ids(list) + remaining == db.subjects.Keys
    && |list| + |remaining| == |db.subjects.Keys|
    && (forall i, j :: 0 <= i < j < |list| ==> list[i].id != list[j].id)
    && (forall i :: 0 <= i < |list| ==>
          list[i].id in db.subjects && list[i] == SubjectOf(list[i].id, db.subjects[list[i].id]))
  }

  lemma ListingStep(list: seq<Subject>, remaining: set<string>, db: Db, k: string)
    requires PartialListing(list, remaining, db) && k in remaining
    ensures PartialListing(list + [SubjectOf(k, db.subjects[k])], remaining - {k}, db)
  {
    var s := SubjectOf(k, db.subjects[k]);
    var next := list + [s];
    IdsAppend(list, s);
    assert Ids(next) !! remaining - {k};
    assert Ids(next) + (remaining - {k}) == db.subjects.Keys;
    assert |remaining - {k}| == |remaining| - 1;
    forall i, j | 0 <= i < j < |next| ensures next[i].id != next[j].id {
      if j < |list| {
        assert next[i] == list[i] && next[j] == list[j];
      } else {
        assert list[i].id in Ids(list);
      }
    }
    forall i | 0 <= i < |next|
      ensures next[i].id in db.subjects && next[i] == SubjectOf(next[i].id, db.subjects[next[i].id])
    {
      if i < |list| { assert next[i] == list[i]; }
    }
  }

  /** Fetch the whole `subjects` collection; the store returns the documents in no fixed order. */
  method ListSubjects(db: Db) returns (list: seq<Subject>)
    ensures IsListing(list, db)
  {
    list := [];
    var remaining := db.subjects.Keys;
    while remaining != {}
      invariant PartialListing(list, remaining, db)
      decreases remaining
    {
      var k :| k in remaining;
      ListingStep(list, remaining, db, k);
      list := list + [SubjectOf(k, db.subjects[k])];
      remaining := remaining - {k};
    }
    assert |db.subjects| == |db.subjects.Keys|;
  }
}
