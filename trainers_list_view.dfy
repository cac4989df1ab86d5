/** The trainers list: the type map `fetchTrainers` builds from the
    `personal_trainer` and `group_trainer` replies (group rows written after
    personal rows, so a group entry wins), and the name, type and limit shown
    on each line. */
module TrainersListView {
  import opened Relational
  import opened Schema
  import Text

  datatype TrainerKind = Personal | Group

  /** A trainer's specialisation and its limit (`max_members` or `max_classes`). */
  datatype TrainerType = TrainerType(trainerId: int, kind: TrainerKind, maxValue: int)

  function PersonalEntry(p: PersonalTrainerRow): TrainerType {
    TrainerType(p.trainerId, Personal, p.maxMembers)
  }

  function GroupEntry(g: GroupTrainerRow): TrainerType {
    TrainerType(g.trainerId, Group, g.maxClasses)
  }

  function PersonalEntries(ps: seq<PersonalTrainerRow>): (es: seq<TrainerType>)
    ensures |es| == |ps| && forall i :: 0 <= i < |ps| ==> es[i] == PersonalEntry(ps[i])
  {
    seq(|ps|, i requires 0 <= i < |ps| => PersonalEntry(ps[i]))
  }

  function GroupEntries(gs: seq<GroupTrainerRow>): (es: seq<TrainerType>)
    ensures |es| == |gs| && forall i :: 0 <= i < |gs| ==> es[i] == GroupEntry(gs[i])
  {
    seq(|gs|, i requires 0 <= i < |gs| => GroupEntry(gs[i]))
  }

  /** `base` after `set(e.trainerId, e)` for each entry in turn. */
  function Written(base: map<int, TrainerType>, es: seq<TrainerType>): map<int, TrainerType>
    decreases |es|
  {
    if es == [] then base
    else Written(base, es[..|es| - 1])[es[|es| - 1].trainerId := es[|es| - 1]]
  }

  /** The map `fetchTrainers` ends with. */
  function TypesMap(ps: seq<PersonalTrainerRow>, gs: seq<GroupTrainerRow>): map<int, TrainerType> {
    Written(Written(map[], PersonalEntries(ps)), GroupEntries(gs))
  }

  /** The two `forEach`/`set` loops of `fetchTrainers`. */
  method BuildTypesMap(ps: seq<PersonalTrainerRow>, gs: seq<GroupTrainerRow>) returns (types: map<int, TrainerType>)
    ensures types == TypesMap(ps, gs)
  {
    types := map[];
    for i := 0 to |ps|
      invariant types == Written(map[], PersonalEntries(ps)[..i])
    {
      assert PersonalEntries(ps)[..i + 1][..i] == PersonalEntries(ps)[..i];
      types := types[ps[i].trainerId := PersonalEntry(ps[i])];
    }
    assert PersonalEntries(ps)[..|ps|] == PersonalEntries(ps);
    ghost var personal := types;
    for j := 0 to |gs|
      invariant types == Written(personal, GroupEntries(gs)[..j])
    {
      assert GroupEntries(gs)[..j + 1][..j] == GroupEntries(gs)[..j];
      types := types[gs[j].trainerId := GroupEntry(gs[j])];
    }
    assert GroupEntries(gs)[..|gs|] == GroupEntries(gs);
  }

  // ------------------------------------------- what the map holds

  /** With distinct keys among the entries, each entry is what the map holds. */
  lemma {:induction false} WrittenAt(base: map<int, TrainerType>, es: seq<TrainerType>, i: nat)
    requires forall a, b :: 0 <= a < b < |es| ==> es[a].trainerId != es[b].trainerId
    requires i < |es|
    ensures es[i].trainerId in Written(base, es) && Written(base, es)[es[i].trainerId] == es[i]
    decreases |es|
  {
    var n := |es| - 1;
    if i < n {
      var front := es[..n];
      assert front[i] == es[i];
      WrittenAt(base, front, i);
      assert es[n].trainerId != es[i].trainerId;
    }
  }

  /** A key no entry names keeps what `base` had for it. */
  lemma {:induction false} WrittenElsewhere(base: map<int, TrainerType>, es: seq<TrainerType>, id: int)
    requires forall a :: 0 <= a < |es| ==> es[a].trainerId != id
    ensures id in Written(base, es) <==> id in base
    ensures id in base ==> Written(base, es)[id] == base[id]
    decreases |es|
  {
    if es != [] {
      var front := es[..|es| - 1];
      forall a | 0 <= a < |front| ensures front[a].trainerId != id {
        assert front[a] == es[a];
      }
      WrittenElsewhere(base, front, id);
    }
  }

  /** Looking a trainer up in the map (`typesMap.get`). */
  function TypeOf(types: map<int, TrainerType>, trainerId: int): Option<TrainerType> {
    if trainerId in types then Some(types[trainerId]) else None
  }

  /** A group trainer is shown as Group with `max_classes`, whether or not it
      also has a `personal_trainer` row. */
  lemma GroupRowWins(ps: seq<PersonalTrainerRow>, gs: seq<GroupTrainerRow>, j: nat)
    requires GroupKeysUnique(gs)
    requires j < |gs|
    ensures TypeOf(TypesMap(ps, gs), gs[j].trainerId) == Some(TrainerType(gs[j].trainerId, Group, gs[j].maxClasses))
  {
    WrittenAt(Written(map[], PersonalEntries(ps)), GroupEntries(gs), j);
  }

  /** A personal trainer with no group row is shown as Personal with `max_members`. */
  lemma PersonalRowKept(ps: seq<PersonalTrainerRow>, gs: seq<GroupTrainerRow>, i: nat)
    requires PersonalKeysUnique(ps)
    requires i < |ps|
    requires !GroupTrainerExists(gs, ps[i].trainerId)
    ensures TypeOf(TypesMap(ps, gs), ps[i].trainerId) == Some(TrainerType(ps[i].trainerId, Personal, ps[i].maxMembers))
  {
    var id := ps[i].trainerId;
    var personal := Written(map[], PersonalEntries(ps));
    WrittenAt(map[], PersonalEntries(ps), i);
    forall a | 0 <= a < |GroupEntries(gs)| ensures GroupEntries(gs)[a].trainerId != id {
      assert gs[a] in gs;
    }
    WrittenElsewhere(personal, GroupEntries(gs), id);
  }

  /** A trainer in neither table has no type: it shows "-" and no limit. */
  lemma UntypedTrainer(ps: seq<PersonalTrainerRow>, gs: seq<GroupTrainerRow>, trainerId: int)
    requires !PersonalTrainerExists(ps, trainerId) && !GroupTrainerExists(gs, trainerId)
    ensures TypeOf(TypesMap(ps, gs), trainerId) == None
    ensures TypeLabel(TypeOf(TypesMap(ps, gs), trainerId)) == "-"
    ensures LimitLabel(TypeOf(TypesMap(ps, gs), trainerId)) == ""
  {
    forall a | 0 <= a < |PersonalEntries(ps)| ensures PersonalEntries(ps)[a].trainerId != trainerId {
      assert ps[a] in ps;
    }
    WrittenElsewhere(map[], PersonalEntries(ps), trainerId);
    forall a | 0 <= a < |GroupEntries(gs)| ensures GroupEntries(gs)[a].trainerId != trainerId {
      assert gs[a] in gs;
    }
    WrittenElsewhere(Written(map[], PersonalEntries(ps)), GroupEntries(gs), trainerId);
  }

  // ------------------------------------------- what each line shows

  /** The "Type" cell: the kind, or "-" for a trainer without one. */
  function TypeLabel(t: Option<TrainerType>): string {
    match t
    case None => "-"
    case Some(tt) => if tt.kind == Personal then "Personal" else "Group"
  }

  /** The "Limit" cell: "N members" for a personal trainer, "N classes" for a
      group trainer, and nothing without a type. */
  function LimitLabel(t: Option<TrainerType>): (s: string)
    ensures s == "" <==> t.None?
    ensures t.Some? && t.value.kind == Personal ==>
      |s| > 8 && s[..|s| - 8] == Text.Decimal(t.value.maxValue) && s[|s| - 8..] == " members"
    ensures t.Some? && t.value.kind == Group ==>
      |s| > 8 && s[..|s| - 8] == Text.Decimal(t.value.maxValue) && s[|s| - 8..] == " classes"
  {
    match t
    case None => ""
    case Some(tt) => Text.Decimal(tt.maxValue) + (if tt.kind == Personal then " members" else " classes")
  }

  /** A middle name is shown when it is non-null and non-empty. */
  predicate ShowsMiddle(middle: Option<string>) {
    middle.Some? && middle.value != ""
  }

  /** The "Name" cell: first name and a space, the middle name and a space
      when there is one, then the last name. */
  function DisplayName(first: string, middle: Option<string>, last: string): (s: string)
    ensures |s| == |first| + 1 + (if ShowsMiddle(middle) then |middle.value| + 1 else 0) + |last|
    ensures s[..|first| + 1] == first + " "
    ensures ShowsMiddle(middle) ==> s[|first| + 1..|first| + 2 + |middle.value|] == middle.value + " "
    ensures s[|s| - |last|..] == last
  {
    first + " " + (if ShowsMiddle(middle) then middle.value + " " else "") + last
  }

  datatype TrainerLine = TrainerLine(
    trainerId: int,
    name: string,
    phoneNumber: string,
    email: string,
    typeLabel: string,
    limitLabel: string)

  function LineOf(t: TrainerRow, types: map<int, TrainerType>): TrainerLine {
    TrainerLine(t.trainerId, DisplayName(t.first, t.middle, t.last), t.phoneNumber, t.email,
                TypeLabel(TypeOf(types, t.trainerId)), LimitLabel(TypeOf(types, t.trainerId)))
  }

  /** One line per trainer, in the order of the reply. */
  function Lines(ts: seq<TrainerRow>, types: map<int, TrainerType>): (r: seq<TrainerLine>)
    ensures |r| == |ts|
    ensures forall i :: 0 <= i < |ts| ==> r[i] == LineOf(ts[i], types)
  {
    seq(|ts|, i requires 0 <= i < |ts| => LineOf(ts[i], types))
  }

  predicate AscendingIds(ts: seq<TrainerRow>) {
    forall i, j :: 0 <= i < j < |ts| ==> ts[i].trainerId < ts[j].trainerId
  }

  /** The reply is ordered by ascending `trainer_id`, so the lines are too. */
  lemma LinesInIdOrder(ts: seq<TrainerRow>, types: map<int, TrainerType>)
    requires AscendingIds(ts)
    ensures forall i, j :: 0 <= i < j < |ts| ==> Lines(ts, types)[i].trainerId < Lines(ts, types)[j].trainerId
  {
  }

  /** The notice shown instead of the table when there are no trainers. */
  function EmptyNotice(lines: seq<TrainerLine>): (n: Option<string>)
    ensures n.Some? <==> lines == []
  {
    if lines == [] then Some("No trainers found in the database.") else None
  }
}
