/**
 * The inline attendance form: a notes field and Present/Absent buttons. A
 * submit is two steps here, pressing a button (the call goes out, `loading`
 * is set) and the call settling (success or failure), because the buttons stay
 * disabled in between.
 */
module AttendanceForm {
  import opened Types

  datatype Button = Present | Absent

  /** The arguments handed to the submit callback. */
  datatype SubmitCall = SubmitCall(attended: bool, notes: string)

  class Form {
    const subject: Subject
    var notes: string
    var loading: bool

    constructor (s: Subject)
      ensures subject == s && notes == "" && !loading
    {
      subject := s;
      notes := "";
      loading := false;
    }

    /** Typing into the notes field (which stays enabled while a submit is pending). */
    method SetNotes(text: string)
      modifies this`notes
      ensures notes == text
    {
      notes := text;
    }

    /**
     * Press a button: Present submits attended = true, Absent attended = false,
     * each with the current notes. Both buttons are disabled while `loading`.
     */
    method Press(button: Button) returns (call: SubmitCall)
      requires !loading
      modifies this`loading
      ensures loading
      ensures call.attended <==> button == Present
      ensures call.notes == notes
    {
      loading := true;
      call := SubmitCall(button == Present, notes);
    }

    /** The pending call settles: notes are cleared only on success; `loading` is cleared either way. */
    method Settle(ok: bool)
      requires loading
      modifies this
      ensures !loading
      ensures ok ==> notes == ""
      ensures !ok ==> notes == old(notes)
    {
      if ok {
        notes := "";
      }
      loading := false;
    }
  }
}
