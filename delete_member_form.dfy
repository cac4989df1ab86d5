/** The delete-member form: the schema, then the existence check, then the
    delete, which the database cascades to the member's attendance, class
    enrollments and trainer assignments. */
module DeleteMemberForm {
  import opened Relational
  import opened Schema
  import opened Store
  import opened Outcomes

  datatype Values = Values(memberId: Option<int>)

  /** The form schema: a member id. */
  predicate Accepts(v: Values) {
    v.memberId.Some?
  }

  /** Submitting the form: validation, then `onSubmit`. */
  method Submit(db: GymDb, v: Values) returns (r: Outcome<()>)
    requires db.Valid()
    modifies db
    ensures db.Valid()
    ensures r == Rejected(InvalidInput) <==> !Accepts(v)
    ensures r == Rejected(MemberNotFound) <==> Accepts(v) && !MemberExists(old(db.member), v.memberId.value)
    ensures r.Ok? <==> Accepts(v) && MemberExists(old(db.member), v.memberId.value)
    ensures r.Rejected? ==> db.State() == old(db.State())
    ensures r.Ok? ==> db.State() == MemberRemoved(old(db.State()), v.memberId.value)
    ensures r.Ok? ==> MemberRemovedExactly(old(db.State()), db.State(), v.memberId.value)
    ensures old(WithinCapacity(db.train, db.personalTrainer)) ==> WithinCapacity(db.train, db.personalTrainer)
    ensures db.nextMemberId == old(db.nextMemberId) && db.nextAttendanceId == old(db.nextAttendanceId)
  {
    if !Accepts(v) {
      return Rejected(InvalidInput);
    }
    var memberId := v.memberId.value;
    if !MemberExists(db.member, memberId) {
      return Rejected(MemberNotFound);
    }
    ghost var before := db.State();
    MemberRemovedKeepsConsistent(before, memberId);
    MemberRemovedIsExact(before, memberId);
    db.DeleteMember(memberId);
    r := Ok(());
  }

  /** After the delete no row of `member`, `attendance`, `takeclass` or `train`
      refers to the member; every row of those tables that did not refer to
      it is still there; and the other tables are untouched. */
  ghost predicate MemberRemovedExactly(before: Tables, after: Tables, memberId: int) {
    && !MemberExists(after.member, memberId)
    && (forall a :: a in after.attendance ==> a.memberId != memberId)
    && (forall t :: t in after.takeClass ==> t.memberId != memberId)
    && (forall t :: t in after.train ==> t.memberId != memberId)
    && (forall m :: m in before.member && m.memberId != memberId <==> m in after.member)
    && (forall a :: a in before.attendance && a.memberId != memberId <==> a in after.attendance)
    && (forall t :: t in before.takeClass && t.memberId != memberId <==> t in after.takeClass)
    && (forall t :: t in before.train && t.memberId != memberId <==> t in after.train)
    && after.trainer == before.trainer && after.personalTrainer == before.personalTrainer
    && after.groupTrainer == before.groupTrainer && after.membership == before.membership
    && after.classes == before.classes && after.teach == before.teach
  }

  lemma MemberRemovedIsExact(db: Tables, memberId: int)
    ensures MemberRemovedExactly(db, MemberRemoved(db, memberId), memberId)
  {
    var after := MemberRemoved(db, memberId);
    forall m | m in after.member ensures m in db.member && m.memberId != memberId {
      var i :| 0 <= i < |after.member| && after.member[i] == m;
      assert NotMember(memberId)(m);
    }
    forall m | m in db.member && m.memberId != memberId ensures m in after.member {
      var i :| 0 <= i < |db.member| && db.member[i] == m;
      assert NotMember(memberId)(db.member[i]);
    }
    forall a | a in after.attendance ensures a in db.attendance && a.memberId != memberId {
      var i :| 0 <= i < |after.attendance| && after.attendance[i] == a;
      assert NotAttendee(memberId)(a);
    }
    forall a | a in db.attendance && a.memberId != memberId ensures a in after.attendance {
      var i :| 0 <= i < |db.attendance| && db.attendance[i] == a;
      assert NotAttendee(memberId)(db.attendance[i]);
    }
    forall t | t in after.takeClass ensures t in db.takeClass && t.memberId != memberId {
      var i :| 0 <= i < |after.takeClass| && after.takeClass[i] == t;
      assert NotEnrolled(memberId)(t);
    }
    forall t | t in db.takeClass && t.memberId != memberId ensures t in after.takeClass {
      var i :| 0 <= i < |db.takeClass| && db.takeClass[i] == t;
      assert NotEnrolled(memberId)(db.takeClass[i]);
    }
    forall t | t in after.train ensures t in db.train && t.memberId != memberId {
      var i :| 0 <= i < |after.train| && after.train[i] == t;
      assert NotTrainee(memberId)(t);
    }
    forall t | t in db.train && t.memberId != memberId ensures t in after.train {
      var i :| 0 <= i < |db.train| && db.train[i] == t;
      assert NotTrainee(memberId)(db.train[i]);
    }
  }
}
