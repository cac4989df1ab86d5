/** The record-attendance form: the schema, then the class, member and
    duplicate checks in that order, then one insert into `attendance`. */
module RecordAttendanceForm {
  import opened Relational
  import opened Schema
  import opened Store
  import opened Outcomes

  datatype Values = Values(date: string, classId: Option<int>, memberId: Option<int>)

  /** The form schema: a date, a class and a member are given. */
  predicate Accepts(v: Values) {
    |v.date| >= 1 && v.classId.Some? && v.memberId.Some?
  }

  /** Submitting the form: validation, then `onSubmit`. */
  method Submit(db: GymDb, v: Values) returns (r: Outcome<()>)
    requires db.Valid()
    modifies db
    ensures db.Valid()
    ensures r == Rejected(InvalidInput) <==> !Accepts(v)
    ensures r == Rejected(ClassNotFound) <==> Accepts(v) && !ClassExists(old(db.classes), v.classId.value)
    ensures r == Rejected(MemberNotFound) <==>
      && Accepts(v) && ClassExists(old(db.classes), v.classId.value)
      && !MemberExists(old(db.member), v.memberId.value)
    ensures r == Rejected(AttendanceExists) <==>
      && Accepts(v) && ClassExists(old(db.classes), v.classId.value)
      && MemberExists(old(db.member), v.memberId.value)
      && AttendanceRecorded(old(db.attendance), v.date, v.classId.value, v.memberId.value)
    ensures r.Ok? <==>
      && Accepts(v) && ClassExists(old(db.classes), v.classId.value)
      && MemberExists(old(db.member), v.memberId.value)
      && !AttendanceRecorded(old(db.attendance), v.date, v.classId.value, v.memberId.value)
    ensures r.Rejected? ==> db.State() == old(db.State()) && db.nextAttendanceId == old(db.nextAttendanceId)
    ensures r.Ok? ==>
      db.attendance == old(db.attendance) + [AttendanceRow(old(db.nextAttendanceId), v.classId.value, v.date, v.memberId.value)]
    ensures r.Ok? ==> db.State() == AddedAttendance(old(db.State()),
      AttendanceRow(old(db.nextAttendanceId), v.classId.value, v.date, v.memberId.value))
    ensures db.nextMemberId == old(db.nextMemberId)
  {
    if !Accepts(v) {
      return Rejected(InvalidInput);
    }
    var classId, memberId := v.classId.value, v.memberId.value;
    if !ClassExists(db.classes, classId) {
      return Rejected(ClassNotFound);
    }
    if !MemberExists(db.member, memberId) {
      return Rejected(MemberNotFound);
    }
    if AttendanceRecorded(db.attendance, v.date, classId, memberId) {
      return Rejected(AttendanceExists);
    }
    var ins := AttendanceInsert(classId, v.date, memberId);
    AddedAttendanceKeepsConsistent(db.State(), AttendanceRowOf(ins, db.nextAttendanceId));
    var attendanceId := db.InsertAttendance(ins);
    r := Ok(());
  }
}
