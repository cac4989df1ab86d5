/** What a form submission ends in: success, with the key of a new row where
    the form reports one, or the reason of the error toast it shows. */
module Outcomes {
  import Text

  datatype Failure =
    | InvalidInput              // the form schema refused a field; nothing is sent
    | ContactInUse              // add: another member holds the phone or email
    | ContactUsedByOther        // update: a different member holds the phone or email
    | TrainerNotFound
    | PlanNotFound
    | MemberNotFound
    | PersonalTrainerNotFound
    | AlreadyAssigned
    | CapacityReached(maxMembers: int)
    | ClassNotFound
    | AttendanceExists

  datatype Outcome<+T> = Ok(value: T) | Rejected(reason: Failure)

  /** The text of the error toast; a schema refusal is shown beside the
      fields instead. */
  function Message(f: Failure): string
    requires !f.InvalidInput?
  {
    match f
    case ContactInUse => "Phone or email already in use"
    case ContactUsedByOther => "Phone or email already used by another member"
    case TrainerNotFound => "Trainer not found"
    case PlanNotFound => "Membership plan not found"
    case MemberNotFound => "Member not found"
    case PersonalTrainerNotFound => "Personal trainer not found"
    case AlreadyAssigned => "Trainer already assigned to this member"
    case CapacityReached(k) => "Trainer has reached maximum capacity (" + Text.Decimal(k) + " members)"
    case ClassNotFound => "Class not found"
    case AttendanceExists => "Attendance already recorded for this date"
  }

  /** The length of each toast: the fixed texts all differ in length, and the
      capacity toast is longer than any of them. */
  function MessageLength(f: Failure): nat
    requires !f.InvalidInput?
  {
    match f
    case ContactInUse => 29
    case ContactUsedByOther => 45
    case TrainerNotFound => 17
    case PlanNotFound => 25
    case MemberNotFound => 16
    case PersonalTrainerNotFound => 26
    case AlreadyAssigned => 39
    case CapacityReached(k) => 47 + |Text.Decimal(k)|
    case ClassNotFound => 15
    case AttendanceExists => 41
  }

  lemma MessageHasLength(f: Failure)
    requires !f.InvalidInput?
    ensures |Message(f)| == MessageLength(f)
  {
  }

  /** The toast names its cause: different failures show different texts, so
      the capacity toast also gives back the exact limit. */
  lemma MessagesDistinct(f: Failure, g: Failure)
    requires !f.InvalidInput? && !g.InvalidInput?
    requires Message(f) == Message(g)
    ensures f == g
  {
    if f.CapacityReached? && g.CapacityReached? {
      var s := Message(f);
      assert s[38..|s| - 9] == Text.Decimal(f.maxMembers);
      assert Message(g)[38..|s| - 9] == Text.Decimal(g.maxMembers);
      Text.DecimalInjective(f.maxMembers, g.maxMembers);
    } else {
      MessageHasLength(f);
      MessageHasLength(g);
      assert MessageLength(f) == MessageLength(g);
    }
  }
}
