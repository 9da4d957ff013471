/** The records the attendance tracker stores and displays. */
module Types {

  datatype Option<T> = None | Some(value: T)

  /** One weekly time slot of a subject: a weekday name and "HH:MM" start and end times. */
  datatype ClassSchedule = ClassSchedule(day: string, startTime: string, endTime: string)

  /** A tracked subject as the app holds it: the store document plus the id it is stored under. */
  datatype Subject = Subject(
    id: string,
    name: string,
    schedule: seq<ClassSchedule>,
    totalClasses: int,
    attendedClasses: int)

  /** One recorded attendance mark; `timestamp` is epoch milliseconds, used only for ordering. */
  datatype ClassEntry = ClassEntry(
    id: string,
    subjectId: string,
    date: string,
    attended: bool,
    learningNotes: string,
    timestamp: int)

  /** The counter invariant every subject is meant to keep. */
  predicate CountsValid(attended: int, total: int)
  {
    0 <= attended <= total
  }

  predicate SubjectValid(s: Subject)
  {
    CountsValid(s.attendedClasses, s.totalClasses)
  }
}
