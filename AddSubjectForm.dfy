/**
 * The add-subject form: a name and an editable list of weekly slots, the
 * blank-name submit guard, and the reset after a successful submit.
 */
module AddSubjectForm {
  import opened Types

  /** The weekday choices the slot's day selector offers. */
  const Weekdays: seq<string> := ["Monday", "Tuesday", "Wednesday", "Thursday", "Friday"]

  /** The slot the form starts with and appends. */
  const DefaultSlot := ClassSchedule("Monday", "", "")

  lemma DefaultSlotIsWeekday()
    ensures DefaultSlot.day in Weekdays
  {
    assert Weekdays[0] == DefaultSlot.day;
  }

  /** A key of a slot record. */
  datatype Field = Day | StartTime | EndTime

  function FieldOf(slot: ClassSchedule, f: Field): (value: string)
  {
    match f
    case Day => slot.day
    case StartTime => slot.startTime
    case EndTime => slot.endTime
  }

  /** The slot with one field replaced (`{...slot, [field]: value}`). */
  function WithField(slot: ClassSchedule, f: Field, value: string): (r: ClassSchedule)
    ensures FieldOf(r, f) == value
    ensures forall g :: g != f ==> FieldOf(r, g) == FieldOf(slot, g)
  {
    match f
    case Day => slot.(day := value)
    case StartTime => slot.(startTime := value)
    case EndTime => slot.(endTime := value)
  }

  /**
   * The slots whose position differs from `index` (a filter on the position):
   * an index outside the list removes nothing.
   */
  function WithoutIndex(s: seq<ClassSchedule>, index: int): (r: seq<ClassSchedule>)
    ensures 0 <= index < |s| ==> r == s[..index] + s[index + 1..]
    ensures !(0 <= index < |s|) ==> r == s
    decreases |s|
  {
    if s == [] then []
    else
      var tail := s[1..];
      assert 0 < index < |s| ==> [s[0]] + (tail[..index - 1] + tail[index..]) == s[..index] + s[index + 1..];
      assert [s[0]] + tail == s;
      (if index == 0 then [] else [s[0]]) + WithoutIndex(tail, index - 1)
  }

  /** The removed slot together with what is left is exactly the old list. */
  lemma {:induction false} WithoutIndexPermutes(s: seq<ClassSchedule>, index: int)
    requires 0 <= index < |s|
    ensures multiset(WithoutIndex(s, index)) + multiset{s[index]} == multiset(s)
  {
    assert s == s[..index] + [s[index]] + s[index + 1..];
  }

  /**
   * The characters JavaScript's String.prototype.trim removes: the WhiteSpace
   * and LineTerminator code points of ECMAScript (section 12.2 and 12.3 of
   * ECMA-262), including every space separator (Zs).
   */
  predicate IsWhiteSpace(c: char)
  {
    || c == '\t' || c == '\n' || c == '\U{000B}' || c == '\U{000C}' || c == '\r' || c == ' '
    || c == '\U{00A0}' || c == '\U{1680}' || ('\U{2000}' <= c <= '\U{200A}')
    || c == '\U{2028}' || c == '\U{2029}' || c == '\U{202F}' || c == '\U{205F}'
    || c == '\U{3000}' || c == '\U{FEFF}'
  }

  /** The string without its leading white space. */
  function TrimStart(s: string): (r: string)
    ensures |r| <= |s| && r == s[|s| - |r|..]
    ensures forall i :: 0 <= i < |s| - |r| ==> IsWhiteSpace(s[i])
    ensures r == [] || !IsWhiteSpace(r[0])
  {
    if s != [] && IsWhiteSpace(s[0]) then TrimStart(s[1..]) else s
  }

  /** The string without its trailing white space. */
  function TrimEnd(s: string): (r: string)
    ensures |r| <= |s| && r == s[..|r|]
    ensures forall i :: |r| <= i < |s| ==> IsWhiteSpace(s[i])
    ensures r == [] || !IsWhiteSpace(r[|r| - 1])
  {
    if s != [] && IsWhiteSpace(s[|s| - 1]) then TrimEnd(s[..|s| - 1]) else s
  }

  function Trim(s: string): (r: string)
  {
    TrimEnd(TrimStart(s))
  }

  /** The submit guard `!name.trim()`: the name is empty or all white space. */
  function IsBlank(name: string): (b: bool)
    ensures b <==> forall i :: 0 <= i < |name| ==> IsWhiteSpace(name[i])
  {
    var t := TrimStart(name);
    assert t != [] ==> TrimEnd(t) != [];
    Trim(name) == []
  }

  /** Every slot has both a start and an end time (the time inputs are `required`). */
  predicate TimesFilled(schedule: seq<ClassSchedule>)
  {
    forall i :: 0 <= i < |schedule| ==> schedule[i].startTime != "" && schedule[i].endTime != ""
  }

  /**
   * The browser's constraint validation of the form's `required` inputs: unless
   * the name and every time are non-empty, no submit event reaches the handler.
   */
  predicate RequiredFilled(name: string, schedule: seq<ClassSchedule>)
  {
    name != "" && TimesFilled(schedule)
  }

  /** A fresh form, or one with a slot just added, cannot be submitted until its times are filled in. */
  lemma DefaultSlotBlocksSubmit(name: string, schedule: seq<ClassSchedule>)
    requires DefaultSlot in schedule
    ensures !RequiredFilled(name, schedule)
  {
    var i :| 0 <= i < |schedule| && schedule[i] == DefaultSlot;
    assert schedule[i].startTime == "";
  }

  /** What the form hands to its submit callback. */
  datatype NewSubject = NewSubject(name: string, schedule: seq<ClassSchedule>)

  class Form {
    var name: string
    var schedule: seq<ClassSchedule>

    /** The list is never empty and every day is one of the offered weekdays. */
    ghost predicate Valid()
      reads this
    {
      |schedule| >= 1 && forall i :: 0 <= i < |schedule| ==> schedule[i].day in Weekdays
    }

    /** The remove button is rendered only while there is more than one slot. */
    predicate RemoveOffered()
      reads this
    {
      |schedule| > 1
    }

    constructor ()
      ensures Valid()
      ensures name == "" && schedule == [DefaultSlot]
    {
      DefaultSlotIsWeekday();
      name := "";
      schedule := [DefaultSlot];
    }

    method SetName(value: string)
      modifies this`name
      ensures name == value
    {
      name := value;
    }

    method AddSchedule()
      requires Valid()
      modifies this`schedule
      ensures Valid()
      ensures |schedule| == |old(schedule)| + 1
      ensures schedule[..|old(schedule)|] == old(schedule)
      ensures schedule[|old(schedule)|] == DefaultSlot
    {
      DefaultSlotIsWeekday();
      schedule := schedule + [DefaultSlot];
    }

    method RemoveSchedule(index: int)
      requires Valid() && RemoveOffered()
      modifies this`schedule
      ensures Valid()
      ensures schedule == WithoutIndex(old(schedule), index)
      ensures 0 <= index < |old(schedule)| ==> |schedule| == |old(schedule)| - 1
    {
      var was := schedule;
      schedule := WithoutIndex(schedule, index);
      assert forall j :: 0 <= j < |schedule| ==> schedule[j] in was;
    }

    /**
     * Copy the list, replace one field of the slot at `index` in the copy, and
     * store the copy. The day selector only offers the weekdays.
     */
    method ScheduleChange(index: int, field: Field, value: string)
      requires Valid() && 0 <= index < |schedule|
      requires field == Day ==> value in Weekdays
      modifies this`schedule
      ensures Valid()
      ensures |schedule| == |old(schedule)|
      ensures forall j :: 0 <= j < |schedule| && j != index ==> schedule[j] == old(schedule[j])
      ensures FieldOf(schedule[index], field) == value
      ensures forall g :: g != field ==> FieldOf(schedule[index], g) == FieldOf(old(schedule[index]), g)
    {
      var current := schedule;
      var copy := new ClassSchedule[|current|](i => if 0 <= i < |current| then current[i] else DefaultSlot);
      copy[index] := WithField(copy[index], field, value);
      schedule := copy[..];
    }

    /**
     * Submit: a blank name sends nothing. Otherwise the name (untrimmed) and the
     * slots are handed to the callback; when it resolves (`ok`) the form resets.
     */
    method Submit(ok: bool) returns (sent: Option<NewSubject>)
      requires Valid()
      modifies this
      ensures Valid()
      ensures IsBlank(old(name)) ==> sent == None && name == old(name) && schedule == old(schedule)
      ensures !IsBlank(old(name)) ==> sent == Some(NewSubject(old(name), old(schedule)))
      ensures !IsBlank(old(name)) && ok ==> name == "" && schedule == [DefaultSlot]
      ensures !ok ==> name == old(name) && schedule == old(schedule)
    {
      if IsBlank(name) {
        return None;
      }
      sent := Some(NewSubject(name, schedule));
      if ok {
        DefaultSlotIsWeekday();
        name := "";
        schedule := [DefaultSlot];
      }
    }

    /**
     * Pressing the submit button: the browser fires the submit event only when
     * every `required` input is filled in, and the handler then runs `Submit`.
     */
    method RequestSubmit(ok: bool) returns (sent: Option<NewSubject>)
      requires Valid()
      modifies this
      ensures Valid()
      ensures sent.Some? ==> RequiredFilled(sent.value.name, sent.value.schedule)
      ensures !RequiredFilled(old(name), old(schedule)) || IsBlank(old(name)) ==>
        sent == None && name == old(name) && schedule == old(schedule)
      ensures RequiredFilled(old(name), old(schedule)) && !IsBlank(old(name)) ==>
        sent == Some(NewSubject(old(name), old(schedule)))
      ensures RequiredFilled(old(name), old(schedule)) && !IsBlank(old(name)) && ok ==>
        name == "" && schedule == [DefaultSlot]
      ensures !ok ==> name == old(name) && schedule == old(schedule)
    {
      if !RequiredFilled(name, schedule) {
        return None;
      }
      sent := Submit(ok);
    }
  }
}
