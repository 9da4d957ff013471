/**
 * A subject card: the attendance percentage and low-attendance flag it shows,
 * and its "Mark Attendance" toggle with the two quick buttons.
 */
module SubjectCard {
  import opened Types

  /**
   * attended / total * 100, and 0 when there are no classes yet. The real
   * quotient stands in for the floating-point one.
   */
  function Percentage(attended: int, total: int): (p: real)
    ensures total == 0 ==> p == 0.0
    ensures total != 0 ==> p * (total as real) == 100.0 * (attended as real)
    ensures CountsValid(attended, total) ==> 0.0 <= p <= 100.0
  {
    if total == 0 then 0.0 else (attended as real / total as real) * 100.0
  }

  /** Below 75 percent, decided without division: attended * 100 < 75 * total. */
  function IsLowAttendance(attended: int, total: int): (low: bool)
    ensures total > 0 ==> (low <==> attended * 100 < 75 * total)
    ensures total == 0 ==> low
  {
    if total > 0 then BelowThreeQuarters(attended, total); Percentage(attended, total) < 75.0
    else Percentage(attended, total) < 75.0
  }

  lemma BelowThreeQuarters(attended: int, total: int)
    requires total > 0
    ensures Percentage(attended, total) < 75.0 <==> attended * 100 < 75 * total
  {
    RealCrossMultiplied(Percentage(attended, total), attended as real, total as real);
    ToIntegers(100.0 * (attended as real), attended, total);
  }

  /** For t > 0 and p * t == 100 * a: p is below 75 exactly when 100 * a is below 75 * t. */
  lemma RealCrossMultiplied(p: real, a: real, t: real)
    requires t > 0.0 && p * t == 100.0 * a
    ensures p < 75.0 <==> 100.0 * a < 75.0 * t
  {
    if p < 75.0 {
      assert (75.0 - p) * t > 0.0;
    } else {
      assert (p - 75.0) * t >= 0.0;
    }
  }

  /** 100 * attended < 75 * total means the same over the reals and the integers. */
  lemma ToIntegers(q: real, attended: int, total: int)
    requires q == 100.0 * (attended as real)
    ensures q < 75.0 * (total as real) <==> attended * 100 < 75 * total
  {
  }

  /** Three classes out of four is exactly 75 percent and not low; 74.9 percent is low. */
  lemma ThreeQuartersIsNotLow()
    ensures Percentage(3, 4) == 75.0 && !IsLowAttendance(3, 4)
    ensures Percentage(749, 1000) < 75.0 && IsLowAttendance(749, 1000)
  {
    assert Percentage(3, 4) * 4.0 == 300.0;
    assert Percentage(749, 1000) * 1000.0 == 74900.0;
  }

  /** The two quick buttons under "Mark Attendance". */
  datatype QuickButton = Present | Absent

  class Card {
    const subject: Subject
    var showAttendance: bool

    constructor (s: Subject)
      ensures subject == s && !showAttendance
    {
      subject := s;
      showAttendance := false;
    }

    /** "Mark Attendance" shows or hides the quick buttons. */
    method ToggleAttendance()
      modifies this
      ensures showAttendance == !old(showAttendance)
    {
      showAttendance := !showAttendance;
    }

    /**
     * Either quick button (they are shown only while `showAttendance`) raises the
     * same attendance intent for the card's subject and hides the buttons; which
     * button was pressed is not passed on.
     */
    method Quick(button: QuickButton) returns (intent: Subject)
      requires showAttendance
      modifies this
      ensures intent == subject && !showAttendance
    {
      intent := subject;
      showAttendance := false;
    }
  }
}
