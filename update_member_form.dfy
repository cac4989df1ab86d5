/** The update-member form: the schema, then the existence check, then the
    uniqueness check that ignores the member's own row, then a two-field
    update of that one member. */
module UpdateMemberForm {
  import opened Relational
  import opened Schema
  import opened Store
  import opened Outcomes

  datatype Values = Values(memberId: Option<int>, phoneNumber: string, email: string)

  /** The form schema: a member id, a phone number of 10 to 20 characters
      and an email of at most 255. */
  predicate Accepts(v: Values) {
    v.memberId.Some? && 10 <= |v.phoneNumber| <= 20 && |v.email| <= 255
  }

  /** Submitting the form: validation, then `onSubmit`. */
  method Submit(db: GymDb, v: Values) returns (r: Outcome<()>)
    requires db.Valid()
    modifies db
    ensures db.Valid()
    ensures r == Rejected(InvalidInput) <==> !Accepts(v)
    ensures r == Rejected(MemberNotFound) <==> Accepts(v) && !MemberExists(old(db.member), v.memberId.value)
    ensures r == Rejected(ContactUsedByOther) <==>
      && Accepts(v) && MemberExists(old(db.member), v.memberId.value)
      && ContactTakenByOther(old(db.member), v.memberId.value, v.phoneNumber, v.email)
    ensures r.Ok? <==>
      && Accepts(v) && MemberExists(old(db.member), v.memberId.value)
      && !ContactTakenByOther(old(db.member), v.memberId.value, v.phoneNumber, v.email)
    ensures r.Rejected? ==> db.State() == old(db.State())
    ensures r.Ok? ==> db.State() == ContactChanged(old(db.State()), v.memberId.value, v.phoneNumber, v.email)
    ensures r.Ok? ==> |db.member| == |old(db.member)| && forall i :: 0 <= i < |db.member| ==>
      db.member[i] == if old(db.member[i]).memberId == v.memberId.value
                      then old(db.member[i]).(phoneNumber := v.phoneNumber, email := v.email)
                      else old(db.member[i])
    ensures db.nextMemberId == old(db.nextMemberId) && db.nextAttendanceId == old(db.nextAttendanceId)
  {
    if !Accepts(v) {
      return Rejected(InvalidInput);
    }
    var memberId := v.memberId.value;
    if !MemberExists(db.member, memberId) {
      return Rejected(MemberNotFound);
    }
    if ContactTakenByOther(db.member, memberId, v.phoneNumber, v.email) {
      return Rejected(ContactUsedByOther);
    }
    ContactChangedKeepsConsistent(db.State(), memberId, v.phoneNumber, v.email);
    db.UpdateContact(memberId, v.phoneNumber, v.email);
    r := Ok(());
  }

  /** A member resubmitting their own current phone number and email is
      never refused as a clash: the only row holding them is their own. */
  lemma OwnContactNeverClashes(ms: seq<MemberRow>, i: nat)
    requires UniqueContacts(ms)
    requires i < |ms|
    ensures !ContactTakenByOther(ms, ms[i].memberId, ms[i].phoneNumber, ms[i].email)
  {
    forall m | m in ms && m.memberId != ms[i].memberId
      ensures m.phoneNumber != ms[i].phoneNumber && m.email != ms[i].email
    {
      var k :| 0 <= k < |ms| && ms[k] == m;
      assert k != i;
    }
  }

  // ------------------------------------------- the duplicate check as written

  function OtherContactMatch(memberId: int, phoneNumber: string, email: string): MemberRow -> bool {
    (m: MemberRow) => m.memberId != memberId && (m.phoneNumber == phoneNumber || m.email == email)
  }

  /** The duplicate check as the form issues it: `.neq` on the member id and
      `.or` of the two equalities, answered with `.maybeSingle()`. */
  predicate ContactCheckAsWritten(ms: seq<MemberRow>, memberId: int, phoneNumber: string, email: string) {
    MaybeSingle(Filter(ms, OtherContactMatch(memberId, phoneNumber, email))).Some?
  }

  /** When the new phone number belongs to one other member and the new email
      to another, two rows match, `.maybeSingle()` returns no row, and the
      update goes through, leaving duplicate phone numbers and emails. */
  lemma AsWrittenMissesSplitClash()
    ensures var a := MemberRow(1, "Ann", None, "Lee", "5550000001", "ann@gym.example", "2024-01-01", 1, None);
            var b := MemberRow(2, "Bo", None, "Kim", "5550000002", "bo@gym.example", "2024-01-01", 1, None);
            var c := MemberRow(3, "Cy", None, "Park", "5550000003", "cy@gym.example", "2024-01-02", 1, None);
            && UniqueContacts([a, b, c])
            && !ContactCheckAsWritten([a, b, c], 3, "5550000001", "bo@gym.example")
            && ContactTakenByOther([a, b, c], 3, "5550000001", "bo@gym.example")
            && !UniqueContacts(WithContact([a, b, c], 3, "5550000001", "bo@gym.example"))
  {
    var a := MemberRow(1, "Ann", None, "Lee", "5550000001", "ann@gym.example", "2024-01-01", 1, None);
    var b := MemberRow(2, "Bo", None, "Kim", "5550000002", "bo@gym.example", "2024-01-01", 1, None);
    var c := MemberRow(3, "Cy", None, "Park", "5550000003", "cy@gym.example", "2024-01-02", 1, None);
    var keep := OtherContactMatch(3, "5550000001", "bo@gym.example");
    assert keep(a) && keep(b) && !keep(c);
    assert Filter([c], keep) == [] by { assert [c][1..] == []; }
    assert [b, c][1..] == [c];
    assert Filter([b, c], keep) == [b];
    assert [a, b, c][1..] == [b, c];
    assert Filter([a, b, c], keep) == [a, b];
    var updated := WithContact([a, b, c], 3, "5550000001", "bo@gym.example");
    assert updated[0].phoneNumber == updated[2].phoneNumber;
  }
}
