/** The assign-trainer form: the schema, then four checks in order (the
    trainer is a personal trainer, the member exists, the pair is new, the
    trainer is below `max_members`), then one insert into `train`. */
module AssignTrainerForm {
  import opened Relational
  import opened Schema
  import opened Store
  import opened Outcomes

  datatype Values = Values(trainerId: Option<int>, memberId: Option<int>)

  /** The form schema: a personal trainer and a member are chosen. */
  predicate Accepts(v: Values) {
    v.trainerId.Some? && v.memberId.Some?
  }

  /** The `max_members` of the trainer's `personal_trainer` row. */
  function MaxMembers(ps: seq<PersonalTrainerRow>, trainerId: int): int
    requires PersonalTrainerExists(ps, trainerId)
  {
    FindPersonalTrainer(ps, trainerId).value.maxMembers
  }

  /** Submitting the form: validation, then `onSubmit`. `countLost` says that
      the count request came back with a null count, which skips the
      capacity check. */
  method Submit(db: GymDb, v: Values, countLost: bool) returns (r: Outcome<()>)
    requires db.Valid()
    modifies db
    ensures db.Valid()
    ensures r == Rejected(InvalidInput) <==> !Accepts(v)
    ensures r == Rejected(PersonalTrainerNotFound) <==>
      Accepts(v) && !PersonalTrainerExists(old(db.personalTrainer), v.trainerId.value)
    ensures r == Rejected(MemberNotFound) <==>
      && Accepts(v) && PersonalTrainerExists(old(db.personalTrainer), v.trainerId.value)
      && !MemberExists(old(db.member), v.memberId.value)
    ensures r == Rejected(AlreadyAssigned) <==>
      && Accepts(v) && PersonalTrainerExists(old(db.personalTrainer), v.trainerId.value)
      && MemberExists(old(db.member), v.memberId.value)
      && Assigned(old(db.train), v.trainerId.value, v.memberId.value)
    ensures (r.Rejected? && r.reason.CapacityReached?) <==>
      && Accepts(v) && PersonalTrainerExists(old(db.personalTrainer), v.trainerId.value)
      && MemberExists(old(db.member), v.memberId.value)
      && !Assigned(old(db.train), v.trainerId.value, v.memberId.value)
      && !countLost
      && AssignmentCount(old(db.train), v.trainerId.value) >= MaxMembers(old(db.personalTrainer), v.trainerId.value)
    ensures r.Rejected? && r.reason.CapacityReached? ==>
      r.reason.maxMembers == MaxMembers(old(db.personalTrainer), v.trainerId.value)
    ensures r.Ok? <==>
      && Accepts(v) && PersonalTrainerExists(old(db.personalTrainer), v.trainerId.value)
      && MemberExists(old(db.member), v.memberId.value)
      && !Assigned(old(db.train), v.trainerId.value, v.memberId.value)
      && (countLost || AssignmentCount(old(db.train), v.trainerId.value) < MaxMembers(old(db.personalTrainer), v.trainerId.value))
    ensures r.Rejected? ==> db.State() == old(db.State())
    ensures r.Ok? ==> db.train == old(db.train) + [TrainRow(v.memberId.value, v.trainerId.value)]
    ensures r.Ok? ==> db.State() == AddedAssignment(old(db.State()), TrainRow(v.memberId.value, v.trainerId.value))
    ensures r.Ok? && !countLost ==>
      AssignmentCount(db.train, v.trainerId.value) <= MaxMembers(db.personalTrainer, v.trainerId.value)
    ensures !countLost && old(WithinCapacity(db.train, db.personalTrainer)) ==>
      WithinCapacity(db.train, db.personalTrainer)
    ensures db.nextMemberId == old(db.nextMemberId) && db.nextAttendanceId == old(db.nextAttendanceId)
  {
    if !Accepts(v) {
      return Rejected(InvalidInput);
    }
    var trainerId, memberId := v.trainerId.value, v.memberId.value;
    var trainer := FindPersonalTrainer(db.personalTrainer, trainerId);
    if trainer.None? {
      return Rejected(PersonalTrainerNotFound);
    }
    if !MemberExists(db.member, memberId) {
      return Rejected(MemberNotFound);
    }
    if Assigned(db.train, trainerId, memberId) {
      return Rejected(AlreadyAssigned);
    }
    var count: Option<nat> := if countLost then None else Some(AssignmentCount(db.train, trainerId));
    if count.Some? && count.value >= trainer.value.maxMembers {
      return Rejected(CapacityReached(trainer.value.maxMembers));
    }
    ghost var before := db.State();
    var row := TrainRow(memberId, trainerId);
    AddedAssignmentKeepsConsistent(before, row);
    if !countLost && WithinCapacity(before.train, before.personalTrainer) {
      AddedAssignmentWithinCapacity(before, row, trainer.value);
    }
    if !countLost {
      AssignmentCountAppend(before.train, row, trainerId);
    }
    db.InsertAssignment(row);
    r := Ok(());
  }
}
