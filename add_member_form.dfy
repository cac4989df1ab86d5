/** The add-member form: the schema's length bounds, then the contact,
    trainer and plan checks in that order (the first failure decides the
    error), then one insert into `member`. */
module AddMemberForm {
  import opened Relational
  import opened Schema
  import opened Store
  import opened Outcomes

  /** The submitted fields. An empty optional text field is `""`; an empty
      select is `None`, a chosen one the id it names. */
  datatype Values = Values(
    first: string,
    middle: string,
    last: string,
    phoneNumber: string,
    email: string,
    joinDate: string,
    trainerId: Option<int>,
    membershipId: Option<int>)

  /** The form schema: names of 1 to 100 characters (middle up to 100),
      a phone number of 10 to 20, an email of at most 255, and a plan. */
  predicate Accepts(v: Values) {
    && 1 <= |v.first| <= 100
    && |v.middle| <= 100
    && 1 <= |v.last| <= 100
    && 10 <= |v.phoneNumber| <= 20
    && |v.email| <= 255
    && v.membershipId.Some?
  }

  /** The insert for accepted values: an empty middle name and an absent
      trainer are stored as null. */
  function ToInsert(v: Values): MemberInsert
    requires v.membershipId.Some?
  {
    MemberInsert(v.first, if v.middle == "" then None else Some(v.middle), v.last,
                 v.phoneNumber, v.email, v.joinDate, v.membershipId.value, v.trainerId)
  }

  /** Submitting the form: validation, then `onSubmit`. */
  method Submit(db: GymDb, v: Values) returns (r: Outcome<int>)
    requires db.Valid()
    modifies db
    ensures db.Valid()
    ensures r == Rejected(InvalidInput) <==> !Accepts(v)
    ensures r == Rejected(ContactInUse) <==>
      Accepts(v) && ContactTaken(old(db.member), v.phoneNumber, v.email)
    ensures r == Rejected(TrainerNotFound) <==>
      && Accepts(v) && !ContactTaken(old(db.member), v.phoneNumber, v.email)
      && v.trainerId.Some? && !TrainerExists(old(db.trainer), v.trainerId.value)
    ensures r == Rejected(PlanNotFound) <==>
      && Accepts(v) && !ContactTaken(old(db.member), v.phoneNumber, v.email)
      && (v.trainerId.Some? ==> TrainerExists(old(db.trainer), v.trainerId.value))
      && !PlanExists(old(db.membership), v.membershipId.value)
    ensures r.Ok? <==>
      && Accepts(v) && !ContactTaken(old(db.member), v.phoneNumber, v.email)
      && (v.trainerId.Some? ==> TrainerExists(old(db.trainer), v.trainerId.value))
      && PlanExists(old(db.membership), v.membershipId.value)
    ensures r.Rejected? ==> db.State() == old(db.State()) && db.nextMemberId == old(db.nextMemberId)
    ensures r.Ok? ==> r.value == old(db.nextMemberId) && !MemberExists(old(db.member), r.value)
    ensures r.Ok? ==> db.State() == AddedMember(old(db.State()), MemberRowOf(ToInsert(v), r.value))
    ensures db.nextAttendanceId == old(db.nextAttendanceId)
  {
    if !Accepts(v) {
      return Rejected(InvalidInput);
    }
    if ContactTaken(db.member, v.phoneNumber, v.email) {
      return Rejected(ContactInUse);
    }
    if v.trainerId.Some? && !TrainerExists(db.trainer, v.trainerId.value) {
      return Rejected(TrainerNotFound);
    }
    if !PlanExists(db.membership, v.membershipId.value) {
      return Rejected(PlanNotFound);
    }
    ghost var before := db.State();
    ghost var key := db.nextMemberId;
    AddedMemberKeepsConsistent(before, MemberRowOf(ToInsert(v), key));
    var memberId := db.InsertMember(ToInsert(v));
    r := Ok(memberId);
  }

  // ------------------------------------------- the duplicate check as written

  function ContactMatch(phoneNumber: string, email: string): MemberRow -> bool {
    (m: MemberRow) => m.phoneNumber == phoneNumber || m.email == email
  }

  /** The duplicate check as the form issues it: the members matching either
      equality, answered with `.maybeSingle()`. */
  predicate ContactCheckAsWritten(ms: seq<MemberRow>, phoneNumber: string, email: string) {
    MaybeSingle(Filter(ms, ContactMatch(phoneNumber, email))).Some?
  }

  /** The check as written only ever rejects a contact that is taken. */
  lemma AsWrittenRejectsOnlyTaken(ms: seq<MemberRow>, phoneNumber: string, email: string)
    requires ContactCheckAsWritten(ms, phoneNumber, email)
    ensures ContactTaken(ms, phoneNumber, email)
  {
    var hits := Filter(ms, ContactMatch(phoneNumber, email));
    assert hits[0] in ms && ContactMatch(phoneNumber, email)(hits[0]);
  }

  /** But when the phone number belongs to one member and the email to
      another, two rows match, `.maybeSingle()` returns no row, and the new
      member is inserted with a duplicate phone number and email. */
  lemma AsWrittenMissesSplitClash()
    ensures var a := MemberRow(1, "Ann", None, "Lee", "5550000001", "ann@gym.example", "2024-01-01", 1, None);
            var b := MemberRow(2, "Bo", None, "Kim", "5550000002", "bo@gym.example", "2024-01-01", 1, None);
            var n := MemberRow(3, "Cy", None, "Park", "5550000001", "bo@gym.example", "2024-01-02", 1, None);
            && UniqueContacts([a, b])
            && !ContactCheckAsWritten([a, b], n.phoneNumber, n.email)
            && ContactTaken([a, b], n.phoneNumber, n.email)
            && !UniqueContacts([a, b] + [n])
  {
    var a := MemberRow(1, "Ann", None, "Lee", "5550000001", "ann@gym.example", "2024-01-01", 1, None);
    var b := MemberRow(2, "Bo", None, "Kim", "5550000002", "bo@gym.example", "2024-01-01", 1, None);
    var n := MemberRow(3, "Cy", None, "Park", "5550000001", "bo@gym.example", "2024-01-02", 1, None);
    var keep := ContactMatch(n.phoneNumber, n.email);
    assert keep(a) && keep(b);
    assert Filter([b], keep) == [b] by { assert [b][1..] == []; }
    assert [a, b][1..] == [b];
    assert Filter([a, b], keep) == [a, b];
    var grown := [a, b] + [n];
    assert grown[0].phoneNumber == grown[2].phoneNumber;
  }

  /** The intended check, "any member holding either value rejects", keeps
      phone numbers and emails unique. */
  lemma ContactCheckKeepsContactsUnique(ms: seq<MemberRow>, n: MemberRow)
    requires UniqueContacts(ms)
    requires !ContactTaken(ms, n.phoneNumber, n.email)
    ensures UniqueContacts(ms + [n])
  {
    var grown := ms + [n];
    forall i, j | 0 <= i < j < |grown|
      ensures grown[i].phoneNumber != grown[j].phoneNumber && grown[i].email != grown[j].email
    {
      if j == |ms| { assert grown[i] in ms; }
    }
  }
}
