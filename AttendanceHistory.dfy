/**
 * The attendance history table: the entries sorted newest first, one row per
 * entry, and the "no records" row for an empty history.
 */
module AttendanceHistory {
  import opened Types

  /** Ordered by timestamp, non-increasing. */
  predicate NewestFirst(s: seq<ClassEntry>)
  {
    forall i, j :: 0 <= i < j < |s| ==> s[i].timestamp >= s[j].timestamp
  }

  /**
   * Place `e` before the first entry that is not newer than it, so that among
   * equal timestamps `e` (earlier in the input) stays first.
   */
  function Insert(e: ClassEntry, s: seq<ClassEntry>): (r: seq<ClassEntry>)
    requires NewestFirst(s)
    ensures NewestFirst(r)
    ensures multiset(r) == multiset(s) + multiset{e}
    ensures r[0] == e || (s != [] && r[0] == s[0])
  {
    if s == [] then [e]
    else if s[0].timestamp <= e.timestamp then
      ConsNewestFirst(e, s);
      [e] + s
    else
      assert s == [s[0]] + s[1..];
      NewestFirstTail(s);
      var rest := Insert(e, s[1..]);
      ConsNewestFirst(s[0], rest);
      [s[0]] + rest
  }

  /** An entry no older than the head of a sorted list can go in front of it. */
  lemma ConsNewestFirst(x: ClassEntry, s: seq<ClassEntry>)
    requires NewestFirst(s) && (s != [] ==> x.timestamp >= s[0].timestamp)
    ensures NewestFirst([x] + s)
  {
    var r := [x] + s;
    forall i, j | 0 <= i < j < |r|
      ensures r[i].timestamp >= r[j].timestamp
    {
      if i == 0 {
        assert r[j] == s[j - 1];
        assert s[0].timestamp >= s[j - 1].timestamp || j == 1;
      } else {
        assert r[i] == s[i - 1] && r[j] == s[j - 1];
      }
    }
  }

  /**
   * The copy sorted by the comparator `b.timestamp - a.timestamp`, as the stable
   * sort of ECMAScript orders it (an insertion sort here). The input, a value,
   * is not changed.
   */
  function SortNewestFirst(entries: seq<ClassEntry>): (r: seq<ClassEntry>)
    ensures NewestFirst(r)
    ensures multiset(r) == multiset(entries)
    ensures |r| == |entries|
  {
    if entries == [] then []
    else
      assert entries == [entries[0]] + entries[1..];
      Insert(entries[0], SortNewestFirst(entries[1..]))
  }

  /** The entries with timestamp `t`, in order. */
  function WithTimestamp(s: seq<ClassEntry>, t: int): (r: seq<ClassEntry>)
  {
    if s == [] then []
    else (if s[0].timestamp == t then [s[0]] else []) + WithTimestamp(s[1..], t)
  }

  lemma NewestFirstTail(s: seq<ClassEntry>)
    requires s != [] && NewestFirst(s)
    ensures NewestFirst(s[1..])
  {
  }

  /** Filtering a sequence with one entry in front. */
  lemma WithTimestampCons(x: ClassEntry, s: seq<ClassEntry>, t: int)
    ensures WithTimestamp([x] + s, t) == (if x.timestamp == t then [x] else []) + WithTimestamp(s, t)
  {
    assert ([x] + s)[0] == x && ([x] + s)[1..] == s;
  }

  lemma {:induction false} InsertStable(e: ClassEntry, s: seq<ClassEntry>, t: int)
    requires NewestFirst(s)
    ensures WithTimestamp(Insert(e, s), t) == (if e.timestamp == t then [e] else []) + WithTimestamp(s, t)
  {
    if s == [] {
      assert Insert(e, s) == [e] + s;
      WithTimestampCons(e, s, t);
    } else if s[0].timestamp <= e.timestamp {
      assert Insert(e, s) == [e] + s;
      WithTimestampCons(e, s, t);
    } else {
      NewestFirstTail(s);
      InsertStable(e, s[1..], t);
      InsertBehindStable(e, s, t);
    }
  }

  /** The step of InsertStable where `e` goes behind the first entry. */
  lemma InsertBehindStable(e: ClassEntry, s: seq<ClassEntry>, t: int)
    requires s != [] && NewestFirst(s) && s[0].timestamp > e.timestamp
    requires NewestFirst(s[1..])
    requires WithTimestamp(Insert(e, s[1..]), t) == (if e.timestamp == t then [e] else []) + WithTimestamp(s[1..], t)
    ensures WithTimestamp(Insert(e, s), t) == (if e.timestamp == t then [e] else []) + WithTimestamp(s, t)
  {
    var rest := Insert(e, s[1..]);
    assert Insert(e, s) == [s[0]] + rest;
    StableStep(s, rest, e, t);
  }

  /** Putting the newer head of `s` in front of a stable step keeps it stable. */
  lemma StableStep(s: seq<ClassEntry>, rest: seq<ClassEntry>, e: ClassEntry, t: int)
    requires s != [] && s[0].timestamp > e.timestamp
    requires WithTimestamp(rest, t) == (if e.timestamp == t then [e] else []) + WithTimestamp(s[1..], t)
    ensures WithTimestamp([s[0]] + rest, t) == (if e.timestamp == t then [e] else []) + WithTimestamp(s, t)
  {
    var later := WithTimestamp(s[1..], t);
    WithTimestampCons(s[0], rest, t);
    if s[0].timestamp == t {
      assert e.timestamp != t;
      assert WithTimestamp(rest, t) == later;
      assert WithTimestamp([s[0]] + rest, t) == [s[0]] + later;
      assert WithTimestamp(s, t) == [s[0]] + later;
    } else {
      assert WithTimestamp([s[0]] + rest, t) == WithTimestamp(rest, t);
      assert WithTimestamp(s, t) == later;
    }
  }

  /**
   * The sort is stable: for every timestamp, the entries carrying it appear in
   * the same order as in the input. With NewestFirst this fixes the output.
   */
  lemma {:induction false} SortIsStable(entries: seq<ClassEntry>, t: int)
    ensures WithTimestamp(SortNewestFirst(entries), t) == WithTimestamp(entries, t)
  {
    if entries != [] {
      SortIsStable(entries[1..], t);
      InsertStable(entries[0], SortNewestFirst(entries[1..]), t);
    }
  }

  datatype Status = Present | Absent

  /** One table row: the raw date (its formatting is not modelled), status and notes. */
  datatype Row = Row(date: string, status: Status, notes: string)

  /** The status cell reads Present exactly for entries that record presence. */
  function StatusOf(e: ClassEntry): (st: Status)
    ensures st == Present <==> e.attended
  {
    if e.attended then Present else Absent
  }

  /** The notes cell: the notes themselves, or "-" when they are empty; never blank. */
  function NotesCell(notes: string): (cell: string)
    ensures cell != []
    ensures notes != [] ==> cell == notes
    ensures notes == [] ==> cell == "-"
  {
    if notes == [] then "-" else notes
  }

  function RowOf(e: ClassEntry): (row: Row)
  {
    Row(e.date, StatusOf(e), NotesCell(e.learningNotes))
  }

  /** The rows of the table, newest entry first. */
  function Rows(entries: seq<ClassEntry>): (rows: seq<Row>)
    ensures |rows| == |entries|
    ensures forall i :: 0 <= i < |rows| ==> rows[i] == RowOf(SortNewestFirst(entries)[i])
  {
    var sorted := SortNewestFirst(entries);
    seq(|sorted|, i requires 0 <= i < |sorted| => RowOf(sorted[i]))
  }

  /** The "No attendance records found" row is shown exactly when there are no entries. */
  function ShowsNoRecords(entries: seq<ClassEntry>): (shown: bool)
    ensures shown <==> entries == []
  {
    |SortNewestFirst(entries)| == 0
  }
}
