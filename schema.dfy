/** The gym's relational schema: one datatype per table row, the insert shapes
    whose keys the store assigns, the database as a value, the point lookups
    the forms issue, and the integrity rules (keys, foreign keys, and the
    application's own admission invariants). */
module Schema {
  import opened Relational

  // ---------------------------------------------------------------- rows

  /** A gym member. Only `middle` and `trainerId` are nullable. */
  datatype MemberRow = MemberRow(
    memberId: int,
    first: string,
    middle: Option<string>,
    last: string,
    phoneNumber: string,
    email: string,
    joinDate: string,
    membershipId: int,
    trainerId: Option<int>)

  /** A member as inserted: `member_id` is left for the store to assign. */
  datatype MemberInsert = MemberInsert(
    first: string,
    middle: Option<string>,
    last: string,
    phoneNumber: string,
    email: string,
    joinDate: string,
    membershipId: int,
    trainerId: Option<int>)

  datatype TrainerRow = TrainerRow(
    trainerId: int,
    first: string,
    middle: Option<string>,
    last: string,
    phoneNumber: string,
    email: string,
    joinDate: string,
    hourlyRate: real,
    rating: Option<real>)

  /** The specialisation of a trainer who takes members one to one. */
  datatype PersonalTrainerRow = PersonalTrainerRow(trainerId: int, maxMembers: int)

  /** The specialisation of a trainer who teaches classes. */
  datatype GroupTrainerRow = GroupTrainerRow(trainerId: int, maxClasses: int)

  datatype MembershipRow = MembershipRow(planId: int, planName: string, durationMonths: int)

  datatype ClassRow = ClassRow(
    classId: int,
    className: string,
    maxCapacity: int,
    scheduleTime: string,
    trainerId: int)

  datatype AttendanceRow = AttendanceRow(attendanceId: int, classId: int, date: string, memberId: int)

  /** An attendance record as inserted: `attendance_id` is left for the store. */
  datatype AttendanceInsert = AttendanceInsert(classId: int, date: string, memberId: int)

  /** A class enrollment (table `takeclass`). */
  datatype TakeClassRow = TakeClassRow(classId: int, memberId: int)

  /** A group trainer teaching a class (table `teach`). */
  datatype TeachRow = TeachRow(classId: int, trainerId: int)

  /** A personal-trainer assignment (table `train`). */
  datatype TrainRow = TrainRow(memberId: int, trainerId: int)

  /** The content of the whole database, one sequence of rows per table
      (`classes` holds table `class`, whose name is a keyword here). */
  datatype Tables = Tables(
    member: seq<MemberRow>,
    trainer: seq<TrainerRow>,
    personalTrainer: seq<PersonalTrainerRow>,
    groupTrainer: seq<GroupTrainerRow>,
    membership: seq<MembershipRow>,
    classes: seq<ClassRow>,
    attendance: seq<AttendanceRow>,
    takeClass: seq<TakeClassRow>,
    teach: seq<TeachRow>,
    train: seq<TrainRow>)

  /** The row the store writes for an insert once it has chosen the key. */
  function MemberRowOf(ins: MemberInsert, memberId: int): MemberRow {
    MemberRow(memberId, ins.first, ins.middle, ins.last, ins.phoneNumber, ins.email,
              ins.joinDate, ins.membershipId, ins.trainerId)
  }

  function AttendanceRowOf(ins: AttendanceInsert, attendanceId: int): AttendanceRow {
    AttendanceRow(attendanceId, ins.classId, ins.date, ins.memberId)
  }

  // ------------------------------------------------------------- lookups

  predicate MemberExists(ms: seq<MemberRow>, memberId: int) {
    exists m :: m in ms && m.memberId == memberId
  }

  predicate TrainerExists(ts: seq<TrainerRow>, trainerId: int) {
    exists t :: t in ts && t.trainerId == trainerId
  }

  predicate PlanExists(ps: seq<MembershipRow>, planId: int) {
    exists p :: p in ps && p.planId == planId
  }

  predicate ClassExists(cs: seq<ClassRow>, classId: int) {
    exists c :: c in cs && c.classId == classId
  }

  predicate PersonalTrainerExists(ps: seq<PersonalTrainerRow>, trainerId: int) {
    exists p :: p in ps && p.trainerId == trainerId
  }

  predicate GroupTrainerExists(gs: seq<GroupTrainerRow>, trainerId: int) {
    exists g :: g in gs && g.trainerId == trainerId
  }

  /** The `personal_trainer` row of a trainer, if there is one. */
  function FindPersonalTrainer(ps: seq<PersonalTrainerRow>, trainerId: int): (r: Option<PersonalTrainerRow>)
    ensures r.Some? <==> PersonalTrainerExists(ps, trainerId)
    ensures r.Some? ==> r.value in ps && r.value.trainerId == trainerId
  {
    if ps == [] then None
    else if ps[0].trainerId == trainerId then Some(ps[0])
    else FindPersonalTrainer(ps[1..], trainerId)
  }

  /** Some member already holds this phone number or this email address. */
  predicate ContactTaken(ms: seq<MemberRow>, phoneNumber: string, email: string) {
    exists m :: m in ms && (m.phoneNumber == phoneNumber || m.email == email)
  }

  /** Some member other than `memberId` holds this phone number or email. */
  predicate ContactTakenByOther(ms: seq<MemberRow>, memberId: int, phoneNumber: string, email: string) {
    exists m :: m in ms && m.memberId != memberId && (m.phoneNumber == phoneNumber || m.email == email)
  }

  /** The trainer is already assigned to the member. */
  predicate Assigned(train: seq<TrainRow>, trainerId: int, memberId: int) {
    TrainRow(memberId, trainerId) in train
  }

  /** Attendance is already recorded for this date, class and member. */
  predicate AttendanceRecorded(att: seq<AttendanceRow>, date: string, classId: int, memberId: int) {
    exists a :: a in att && a.date == date && a.classId == classId && a.memberId == memberId
  }

  /** How many members are assigned to a trainer (the exact `count` over `train`). */
  function AssignmentCount(train: seq<TrainRow>, trainerId: int): nat {
    if train == [] then 0
    else (if train[0].trainerId == trainerId then 1 else 0) + AssignmentCount(train[1..], trainerId)
  }

  lemma {:induction false} AssignmentCountAppend(train: seq<TrainRow>, row: TrainRow, trainerId: int)
    ensures AssignmentCount(train + [row], trainerId)
         == AssignmentCount(train, trainerId) + (if row.trainerId == trainerId then 1 else 0)
  {
    if train != [] {
      assert (train + [row])[1..] == train[1..] + [row];
      AssignmentCountAppend(train[1..], row, trainerId);
    }
  }

  /** Removing rows never raises a trainer's assignment count. */
  lemma {:induction false} AssignmentCountFilter(train: seq<TrainRow>, keep: TrainRow -> bool, trainerId: int)
    ensures AssignmentCount(Filter(train, keep), trainerId) <= AssignmentCount(train, trainerId)
  {
    if train != [] {
      AssignmentCountFilter(train[1..], keep, trainerId);
      if keep(train[0]) {
        assert ([train[0]] + Filter(train[1..], keep))[1..] == Filter(train[1..], keep);
      }
    }
  }

  // ------------------------------------------------------ primary keys

  predicate MemberKeysUnique(ms: seq<MemberRow>) {
    forall i, j :: 0 <= i < j < |ms| ==> ms[i].memberId != ms[j].memberId
  }

  predicate TrainerKeysUnique(ts: seq<TrainerRow>) {
    forall i, j :: 0 <= i < j < |ts| ==> ts[i].trainerId != ts[j].trainerId
  }

  predicate PlanKeysUnique(ps: seq<MembershipRow>) {
    forall i, j :: 0 <= i < j < |ps| ==> ps[i].planId != ps[j].planId
  }

  predicate ClassKeysUnique(cs: seq<ClassRow>) {
    forall i, j :: 0 <= i < j < |cs| ==> cs[i].classId != cs[j].classId
  }

  predicate AttendanceKeysUnique(att: seq<AttendanceRow>) {
    forall i, j :: 0 <= i < j < |att| ==> att[i].attendanceId != att[j].attendanceId
  }

  /** At most one `personal_trainer` row per trainer (the one-to-one key). */
  predicate PersonalKeysUnique(ps: seq<PersonalTrainerRow>) {
    forall i, j :: 0 <= i < j < |ps| ==> ps[i].trainerId != ps[j].trainerId
  }

  /** At most one `group_trainer` row per trainer (the one-to-one key). */
  predicate GroupKeysUnique(gs: seq<GroupTrainerRow>) {
    forall i, j :: 0 <= i < j < |gs| ==> gs[i].trainerId != gs[j].trainerId
  }

  predicate KeysUnique(db: Tables) {
    && MemberKeysUnique(db.member)
    && TrainerKeysUnique(db.trainer)
    && PlanKeysUnique(db.membership)
    && ClassKeysUnique(db.classes)
    && AttendanceKeysUnique(db.attendance)
    && PersonalKeysUnique(db.personalTrainer)
    && GroupKeysUnique(db.groupTrainer)
  }

  // ------------------------------------------------------ foreign keys

  /** `member.membership_id` names a plan; a non-null `member.trainer_id` a trainer. */
  predicate MemberRefsHold(db: Tables) {
    forall m :: m in db.member ==>
      PlanExists(db.membership, m.membershipId) &&
      (m.trainerId.Some? ==> TrainerExists(db.trainer, m.trainerId.value))
  }

  predicate AttendanceRefsHold(db: Tables) {
    forall a :: a in db.attendance ==> ClassExists(db.classes, a.classId) && MemberExists(db.member, a.memberId)
  }

  predicate ClassRefsHold(db: Tables) {
    forall c :: c in db.classes ==> TrainerExists(db.trainer, c.trainerId)
  }

  /** Both specialisations refer to an existing trainer. */
  predicate SpecialisationRefsHold(db: Tables) {
    && (forall p :: p in db.personalTrainer ==> TrainerExists(db.trainer, p.trainerId))
    && (forall g :: g in db.groupTrainer ==> TrainerExists(db.trainer, g.trainerId))
  }

  predicate TakeClassRefsHold(db: Tables) {
    forall t :: t in db.takeClass ==> ClassExists(db.classes, t.classId) && MemberExists(db.member, t.memberId)
  }

  /** `teach.trainer_id` refers to a group trainer, not to `trainer` directly. */
  predicate TeachRefsHold(db: Tables) {
    forall t :: t in db.teach ==> ClassExists(db.classes, t.classId) && GroupTrainerExists(db.groupTrainer, t.trainerId)
  }

  /** `train.trainer_id` refers to a personal trainer, not to `trainer` directly. */
  predicate TrainRefsHold(db: Tables) {
    forall t :: t in db.train ==> PersonalTrainerExists(db.personalTrainer, t.trainerId) && MemberExists(db.member, t.memberId)
  }

  predicate ReferencesHold(db: Tables) {
    && MemberRefsHold(db)
    && AttendanceRefsHold(db)
    && ClassRefsHold(db)
    && SpecialisationRefsHold(db)
    && TakeClassRefsHold(db)
    && TeachRefsHold(db)
    && TrainRefsHold(db)
  }

  // ------------------------------------------ the forms' own invariants

  /** No two members share a phone number, and no two share an email. */
  predicate UniqueContacts(ms: seq<MemberRow>) {
    forall i, j :: 0 <= i < j < |ms| ==> ms[i].phoneNumber != ms[j].phoneNumber && ms[i].email != ms[j].email
  }

  /** No two attendance rows share (date, class, member). */
  predicate NoDuplicateAttendance(att: seq<AttendanceRow>) {
    forall i, j :: 0 <= i < j < |att| ==>
      !(att[i].date == att[j].date && att[i].classId == att[j].classId && att[i].memberId == att[j].memberId)
  }

  /** No (trainer, member) pair occurs twice in `train`. */
  predicate NoDuplicateAssignments(train: seq<TrainRow>) {
    forall i, j :: 0 <= i < j < |train| ==> train[i] != train[j]
  }

  /** Every personal trainer has at most `max_members` members assigned. */
  predicate WithinCapacity(train: seq<TrainRow>, ps: seq<PersonalTrainerRow>) {
    forall p :: p in ps ==> AssignmentCount(train, p.trainerId) <= p.maxMembers
  }

  predicate AdmissionRulesHold(db: Tables) {
    && UniqueContacts(db.member)
    && NoDuplicateAttendance(db.attendance)
    && NoDuplicateAssignments(db.train)
  }

  /** The database satisfies its keys, its foreign keys and the admission rules. */
  predicate Consistent(db: Tables) {
    KeysUnique(db) && ReferencesHold(db) && AdmissionRulesHold(db)
  }
}
