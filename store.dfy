/** The hosted database as the forms see it: what each write does to the
    tables (including the `ON DELETE CASCADE` of a member), the proof that each
    write keeps the database consistent when the forms' guards have passed,
    and the store object whose tables the writes update in place. */
module Store {
  import opened Relational
  import opened Schema

  // ------------------------------------------------- what the writes do

  function AddedMember(db: Tables, m: MemberRow): Tables {
    db.(member := db.member + [m])
  }

  /** The members with the phone number and email of `memberId` replaced. */
  function WithContact(ms: seq<MemberRow>, memberId: int, phoneNumber: string, email: string): (r: seq<MemberRow>)
    ensures |r| == |ms|
    ensures forall i :: 0 <= i < |ms| && ms[i].memberId != memberId ==> r[i] == ms[i]
    ensures forall i :: 0 <= i < |ms| && ms[i].memberId == memberId ==>
      r[i] == ms[i].(phoneNumber := phoneNumber, email := email)
  {
    seq(|ms|, i requires 0 <= i < |ms| =>
      if ms[i].memberId == memberId then ms[i].(phoneNumber := phoneNumber, email := email) else ms[i])
  }

  function ContactChanged(db: Tables, memberId: int, phoneNumber: string, email: string): Tables {
    db.(member := WithContact(db.member, memberId, phoneNumber, email))
  }

  function NotMember(memberId: int): MemberRow -> bool { (m: MemberRow) => m.memberId != memberId }
  function NotAttendee(memberId: int): AttendanceRow -> bool { (a: AttendanceRow) => a.memberId != memberId }
  function NotEnrolled(memberId: int): TakeClassRow -> bool { (t: TakeClassRow) => t.memberId != memberId }
  function NotTrainee(memberId: int): TrainRow -> bool { (t: TrainRow) => t.memberId != memberId }

  /** Deleting a member, with the cascade to its attendance, enrollments and
      trainer assignments. */
  function MemberRemoved(db: Tables, memberId: int): Tables {
    db.(member := Filter(db.member, NotMember(memberId)),
        attendance := Filter(db.attendance, NotAttendee(memberId)),
        takeClass := Filter(db.takeClass, NotEnrolled(memberId)),
        train := Filter(db.train, NotTrainee(memberId)))
  }

  function AddedAssignment(db: Tables, row: TrainRow): Tables {
    db.(train := db.train + [row])
  }

  function AddedAttendance(db: Tables, row: AttendanceRow): Tables {
    db.(attendance := db.attendance + [row])
  }

  // --------------------------------------- consistency of guarded writes

  /** A member whose key is fresh, whose contact is free, and whose plan and
      (optional) trainer exist keeps the database consistent. */
  lemma AddedMemberKeepsConsistent(db: Tables, m: MemberRow)
    requires Consistent(db)
    requires !MemberExists(db.member, m.memberId)
    requires !ContactTaken(db.member, m.phoneNumber, m.email)
    requires PlanExists(db.membership, m.membershipId)
    requires m.trainerId.Some? ==> TrainerExists(db.trainer, m.trainerId.value)
    ensures Consistent(AddedMember(db, m))
  {
    var after := AddedMember(db, m);
    var ms := after.member;
    forall i, j | 0 <= i < j < |ms| ensures ms[i].memberId != ms[j].memberId {
      if j == |db.member| { assert ms[i] in db.member; }
    }
    forall i, j | 0 <= i < j < |ms|
      ensures ms[i].phoneNumber != ms[j].phoneNumber && ms[i].email != ms[j].email
    {
      if j == |db.member| { assert ms[i] in db.member; }
    }
    forall k | MemberExists(db.member, k) ensures MemberExists(ms, k) {
      var w :| w in db.member && w.memberId == k;
      assert w in ms;
    }
  }

  /** Changing one member's contact to values no other member holds keeps the
      database consistent, and leaves the set of member keys as it was. */
  lemma ContactChangedKeepsConsistent(db: Tables, memberId: int, phoneNumber: string, email: string)
    requires Consistent(db)
    requires !ContactTakenByOther(db.member, memberId, phoneNumber, email)
    ensures forall k :: MemberExists(ContactChanged(db, memberId, phoneNumber, email).member, k) <==> MemberExists(db.member, k)
    ensures Consistent(ContactChanged(db, memberId, phoneNumber, email))
  {
    var ms := db.member;
    var ns := WithContact(ms, memberId, phoneNumber, email);
    forall k ensures MemberExists(ns, k) <==> MemberExists(ms, k) {
      if MemberExists(ms, k) {
        var i :| 0 <= i < |ms| && ms[i].memberId == k;
        assert ns[i].memberId == k;
      }
      if MemberExists(ns, k) {
        var i :| 0 <= i < |ns| && ns[i].memberId == k;
        assert ms[i].memberId == k;
      }
    }
    forall i, j | 0 <= i < j < |ns| ensures ns[i].phoneNumber != ns[j].phoneNumber && ns[i].email != ns[j].email {
      if ms[i].memberId == memberId {
        assert ms[j].memberId != memberId;
        assert ms[j] in ms;
      } else if ms[j].memberId == memberId {
        assert ms[i] in ms;
      }
    }
  }

  /** Deleting a member, cascade included, keeps the database consistent and
      never pushes a personal trainer over capacity. */
  lemma MemberRemovedKeepsConsistent(db: Tables, memberId: int)
    requires Consistent(db)
    ensures Consistent(MemberRemoved(db, memberId))
    ensures WithinCapacity(db.train, db.personalTrainer) ==>
      WithinCapacity(MemberRemoved(db, memberId).train, db.personalTrainer)
  {
    MemberRemovedKeepsKeys(db, memberId);
    MemberRemovedKeepsReferences(db, memberId);
    var after := MemberRemoved(db, memberId);
    forall p | p in db.personalTrainer ensures AssignmentCount(after.train, p.trainerId) <= AssignmentCount(db.train, p.trainerId) {
      AssignmentCountFilter(db.train, NotTrainee(memberId), p.trainerId);
    }
  }

  lemma MemberRemovedKeepsKeys(db: Tables, memberId: int)
    requires KeysUnique(db) && AdmissionRulesHold(db)
    ensures KeysUnique(MemberRemoved(db, memberId)) && AdmissionRulesHold(MemberRemoved(db, memberId))
  {
    FilterKeepsPairwise(db.member, NotMember(memberId), (a: MemberRow, b: MemberRow) => a.memberId != b.memberId);
    FilterKeepsPairwise(db.member, NotMember(memberId),
      (a: MemberRow, b: MemberRow) => a.phoneNumber != b.phoneNumber && a.email != b.email);
    FilterKeepsPairwise(db.attendance, NotAttendee(memberId),
      (a: AttendanceRow, b: AttendanceRow) => a.attendanceId != b.attendanceId);
    FilterKeepsPairwise(db.attendance, NotAttendee(memberId),
      (a: AttendanceRow, b: AttendanceRow) => !(a.date == b.date && a.classId == b.classId && a.memberId == b.memberId));
    FilterKeepsPairwise(db.train, NotTrainee(memberId), (a: TrainRow, b: TrainRow) => a != b);
  }

  /** Every row that survives the cascade refers to a member other than the
      deleted one, and that member survives too. */
  lemma MemberRemovedKeepsReferences(db: Tables, memberId: int)
    requires ReferencesHold(db)
    ensures ReferencesHold(MemberRemoved(db, memberId))
  {
    var after := MemberRemoved(db, memberId);
    forall k | k != memberId && MemberExists(db.member, k) ensures MemberExists(after.member, k) {
      var i :| 0 <= i < |db.member| && db.member[i].memberId == k;
      assert NotMember(memberId)(db.member[i]);
    }
    forall a | a in after.attendance ensures MemberExists(after.member, a.memberId) {
      var i :| 0 <= i < |after.attendance| && after.attendance[i] == a;
      assert NotAttendee(memberId)(a);
    }
    forall t | t in after.takeClass ensures MemberExists(after.member, t.memberId) {
      var i :| 0 <= i < |after.takeClass| && after.takeClass[i] == t;
      assert NotEnrolled(memberId)(t);
    }
    forall t | t in after.train ensures MemberExists(after.member, t.memberId) {
      var i :| 0 <= i < |after.train| && after.train[i] == t;
      assert NotTrainee(memberId)(t);
    }
    forall m | m in after.member ensures m in db.member {
      var i :| 0 <= i < |after.member| && after.member[i] == m;
    }
  }

  /** Assigning an existing personal trainer to an existing member, when the
      pair is new, keeps the database consistent. */
  lemma AddedAssignmentKeepsConsistent(db: Tables, row: TrainRow)
    requires Consistent(db)
    requires PersonalTrainerExists(db.personalTrainer, row.trainerId)
    requires MemberExists(db.member, row.memberId)
    requires !Assigned(db.train, row.trainerId, row.memberId)
    ensures Consistent(AddedAssignment(db, row))
  {
    var ts := db.train + [row];
    forall i, j | 0 <= i < j < |ts| ensures ts[i] != ts[j] {
      if j == |db.train| { assert ts[i] in db.train; }
    }
  }

  /** An assignment to a trainer still below `max_members` keeps every
      personal trainer within capacity. */
  lemma AddedAssignmentWithinCapacity(db: Tables, row: TrainRow, p: PersonalTrainerRow)
    requires PersonalKeysUnique(db.personalTrainer)
    requires WithinCapacity(db.train, db.personalTrainer)
    requires p in db.personalTrainer && p.trainerId == row.trainerId
    requires AssignmentCount(db.train, row.trainerId) < p.maxMembers
    ensures AssignmentCount(db.train + [row], row.trainerId) <= p.maxMembers
    ensures WithinCapacity(AddedAssignment(db, row).train, db.personalTrainer)
  {
    forall q | q in db.personalTrainer ensures AssignmentCount(db.train + [row], q.trainerId) <= q.maxMembers {
      AssignmentCountAppend(db.train, row, q.trainerId);
      if q.trainerId == row.trainerId {
        var i :| 0 <= i < |db.personalTrainer| && db.personalTrainer[i] == q;
        var j :| 0 <= j < |db.personalTrainer| && db.personalTrainer[j] == p;
        assert i == j;
      }
    }
  }

  /** Attendance with a fresh key, for an existing class and member, on a
      (date, class, member) not yet recorded, keeps the database consistent. */
  lemma AddedAttendanceKeepsConsistent(db: Tables, row: AttendanceRow)
    requires Consistent(db)
    requires forall a :: a in db.attendance ==> a.attendanceId != row.attendanceId
    requires ClassExists(db.classes, row.classId)
    requires MemberExists(db.member, row.memberId)
    requires !AttendanceRecorded(db.attendance, row.date, row.classId, row.memberId)
    ensures Consistent(AddedAttendance(db, row))
  {
    var att := db.attendance + [row];
    forall i, j | 0 <= i < j < |att|
      ensures att[i].attendanceId != att[j].attendanceId
      ensures !(att[i].date == att[j].date && att[i].classId == att[j].classId && att[i].memberId == att[j].memberId)
    {
      if j == |db.attendance| { assert att[i] in db.attendance; }
    }
  }

  // ------------------------------------------------------- the store

  /** The remote database, held in memory: one sequence of rows per table,
      and the next keys its sequences hand out for `member` and `attendance`. */
  class GymDb {
    var member: seq<MemberRow>
    var trainer: seq<TrainerRow>
    var personalTrainer: seq<PersonalTrainerRow>
    var groupTrainer: seq<GroupTrainerRow>
    var membership: seq<MembershipRow>
    var classes: seq<ClassRow>
    var attendance: seq<AttendanceRow>
    var takeClass: seq<TakeClassRow>
    var teach: seq<TeachRow>
    var train: seq<TrainRow>
    var nextMemberId: int
    var nextAttendanceId: int

    /** The tables' current content as a value. */
    function State(): Tables
      reads this
    {
      Tables(member, trainer, personalTrainer, groupTrainer, membership,
             classes, attendance, takeClass, teach, train)
    }

    /** The data is consistent and every key handed out so far is below the
        next one, so the store never reuses a key. */
    ghost predicate Valid()
      reads this
    {
      && Consistent(State())
      && (forall m :: m in member ==> m.memberId < nextMemberId)
      && (forall a :: a in attendance ==> a.attendanceId < nextAttendanceId)
    }

    constructor (db: Tables, nextMemberId: int, nextAttendanceId: int)
      requires Consistent(db)
      requires forall m :: m in db.member ==> m.memberId < nextMemberId
      requires forall a :: a in db.attendance ==> a.attendanceId < nextAttendanceId
      ensures Valid()
      ensures State() == db
      ensures this.nextMemberId == nextMemberId && this.nextAttendanceId == nextAttendanceId
    {
      member, trainer, personalTrainer, groupTrainer, membership := db.member, db.trainer, db.personalTrainer, db.groupTrainer, db.membership;
      classes, attendance, takeClass, teach, train := db.classes, db.attendance, db.takeClass, db.teach, db.train;
      this.nextMemberId, this.nextAttendanceId := nextMemberId, nextAttendanceId;
    }

    /** `insert` into `member`: the store assigns the next key. */
    method InsertMember(ins: MemberInsert) returns (memberId: int)
      modifies this
      ensures memberId == old(nextMemberId)
      ensures State() == AddedMember(old(State()), MemberRowOf(ins, memberId))
      ensures nextMemberId == old(nextMemberId) + 1 && nextAttendanceId == old(nextAttendanceId)
    {
      memberId := nextMemberId;
      member := member + [MemberRowOf(ins, memberId)];
      nextMemberId := nextMemberId + 1;
    }

    /** `update` of `phone_number` and `email` where `member_id` matches. */
    method UpdateContact(memberId: int, phoneNumber: string, email: string)
      modifies this
      ensures State() == ContactChanged(old(State()), memberId, phoneNumber, email)
      ensures nextMemberId == old(nextMemberId) && nextAttendanceId == old(nextAttendanceId)
    {
      member := WithContact(member, memberId, phoneNumber, email);
    }

    /** `delete` from `member`, cascading to `attendance`, `takeclass` and `train`. */
    method DeleteMember(memberId: int)
      modifies this
      ensures State() == MemberRemoved(old(State()), memberId)
      ensures nextMemberId == old(nextMemberId) && nextAttendanceId == old(nextAttendanceId)
    {
      member := Filter(member, NotMember(memberId));
      attendance := Filter(attendance, NotAttendee(memberId));
      takeClass := Filter(takeClass, NotEnrolled(memberId));
      train := Filter(train, NotTrainee(memberId));
    }

    /** `insert` into `train`. */
    method InsertAssignment(row: TrainRow)
      modifies this
      ensures State() == AddedAssignment(old(State()), row)
      ensures nextMemberId == old(nextMemberId) && nextAttendanceId == old(nextAttendanceId)
    {
      train := train + [row];
    }

    /** `insert` into `attendance`: the store assigns the next key. */
    method InsertAttendance(ins: AttendanceInsert) returns (attendanceId: int)
      modifies this
      ensures attendanceId == old(nextAttendanceId)
      ensures State() == AddedAttendance(old(State()), AttendanceRowOf(ins, attendanceId))
      ensures nextAttendanceId == old(nextAttendanceId) + 1 && nextMemberId == old(nextMemberId)
    {
      attendanceId := nextAttendanceId;
      attendance := attendance + [AttendanceRowOf(ins, attendanceId)];
      nextAttendanceId := nextAttendanceId + 1;
    }
  }
}
