# Gym administration: admission rules of the member, trainer and attendance forms

This project models the admission rules of a gym administration web
application and proves properties of them in Dafny 4.11. The application is a
set of forms over a hosted relational database. Each form validates its
fields with a schema, runs a short sequence of lookups with early returns,
and then issues one insert, update or delete.

The database is modelled as an in-memory store. `Store.GymDb` is a class with
one `seq` field per table (`member`, `trainer`, `personal_trainer`,
`group_trainer`, `membership`, `class`, `attendance`, `takeclass`, `teach`,
`train`) and the next keys its sequences hand out. `Schema.Tables` holds the
same content as a value. Each write is a pure function of `Tables`:
`AddedMember`, `ContactChanged`, `MemberRemoved` (with the cascade to
attendance, enrollments and assignments), `AddedAssignment` and
`AddedAttendance`. The store's methods are proved to perform exactly that
write.

Each form's submission (schema check, then `onSubmit`) is a method `Submit`
in the form's own module. Its contract states:

- which error each guard raises, as an if-and-only-if in the order the guards run;
- that a rejected submission changes nothing;
- the exact new state after a success;
- that the store invariant `GymDb.Valid()` is kept.

`Valid()` is `Schema.Consistent` plus the freshness of store-assigned keys.
`Consistent` covers:

- the primary keys;
- every foreign key of the generated schema (`member` to `membership` and to
  `trainer`; `attendance` and `takeclass` to `class` and `member`; `class` to
  `trainer`; `personal_trainer` and `group_trainer` one-to-one with `trainer`;
  `teach` to `group_trainer`; `train` to `personal_trainer` and `member`);
- the forms' own rules: unique phone numbers and emails, no duplicate
  (date, class, member) attendance, no duplicate (trainer, member) assignment.

Trainer capacity (`Schema.WithinCapacity`) is a separate invariant. The
assign form keeps it only when the count request returns a count: a null
count skips the capacity check.

In `Schema.MemberRow`, only `middle` and `trainerId` are `Option`s (nullable);
every other column is required. The insert shapes `MemberInsert` and
`AttendanceInsert` have no key, because the store assigns it.

The two views are pure code:

- the trainers list builds its type map with two loops, so a group row
  overrides a personal one, and derives the name, type and limit cells;
- the fill-rate view defaults null columns and picks a status label.

Inputs that the application gets from outside are parameters of the model:

- the form values;
- whether the assignment count came back null (`countLost`);
- the replies of the two views' queries.

## Model

| member | source | states |
|---|---|---|
| Relational.MaybeSingle | src/components/gym/AddMemberForm.tsx:63-67 | a `.maybeSingle()` reply holds a row exactly when one row matches, and none when zero or several match |
| Schema.FindPersonalTrainer | src/components/gym/AssignTrainerForm.tsx:51-61 | the lookup finds a row exactly when the trainer has a `personal_trainer` row, and the row it returns belongs to that trainer |
| Schema.AssignmentCountAppend | src/components/gym/AssignTrainerForm.tsx:88-105 | inserting a `train` row raises the count of its own trainer by one and leaves every other trainer's count as it was |
| Schema.AssignmentCountFilter | src/components/gym/DeleteMemberForm.tsx:42-47 | removing `train` rows never raises any trainer's assignment count |
| Store.AddedMemberKeepsConsistent | src/integrations/supabase/types.ts:149-164 | a member with a fresh key, a free contact, an existing plan and, if given, an existing trainer keeps every key, foreign key and admission rule |
| Store.ContactChangedKeepsConsistent | src/components/gym/UpdateMemberForm.tsx:44-64 | replacing one member's contact with values no other member holds keeps the database consistent and leaves the set of member keys unchanged |
| Store.MemberRemovedKeepsConsistent | src/components/gym/DeleteMemberForm.tsx:42-47 | the cascading delete keeps the database consistent and keeps every personal trainer within capacity |
| Store.MemberRemovedKeepsKeys | src/components/gym/DeleteMemberForm.tsx:42-47 | after the cascade, keys stay unique, contacts stay unique, and attendance and assignments stay free of duplicates |
| Store.MemberRemovedKeepsReferences | src/integrations/supabase/types.ts:36-58 | after the cascade, every surviving attendance, enrollment and assignment row still refers to an existing member and class or trainer |
| Store.AddedAssignmentKeepsConsistent | src/integrations/supabase/types.ts:294-309 | a new (personal trainer, member) pair whose trainer is in `personal_trainer` and whose member exists keeps the foreign keys of `train` and its freedom from duplicates |
| Store.AddedAssignmentWithinCapacity | src/components/gym/AssignTrainerForm.tsx:88-97 | an assignment to a trainer whose count is below `max_members` leaves that trainer at most at `max_members` and every personal trainer within capacity |
| Store.AddedAttendanceKeepsConsistent | src/components/gym/RecordAttendanceForm.tsx:76-97 | attendance for an existing class and member on a (date, class, member) not yet recorded keeps (date, class, member) unique and both foreign keys |
| Store.GymDb.InsertMember | src/integrations/supabase/types.ts:127-137 | the insert needs no `member_id`; the store gives the row its next key and appends it, leaving all other tables alone |
| Store.GymDb.InsertAttendance | src/integrations/supabase/types.ts:24-29 | the insert needs no `attendance_id`; the store gives the row its next key and appends it |
| Store.GymDb.UpdateContact | src/components/gym/UpdateMemberForm.tsx:57-64 | the update rewrites `phone_number` and `email` of the rows with that key and nothing else |
| Store.GymDb.DeleteMember | src/components/gym/DeleteMemberForm.tsx:42-47 | the delete removes the member's rows from `member`, `attendance`, `takeclass` and `train` and touches no other table |
| Store.GymDb.InsertAssignment | src/components/gym/AssignTrainerForm.tsx:99-105 | the insert appends one `train` row and touches no other table, `member.trainer_id` included |
| Outcomes.MessagesDistinct | src/components/gym/AssignTrainerForm.tsx:94-96 | different failures show different error toasts; in particular the capacity toast determines the trainer's `max_members` |
| AddMemberForm.Submit | src/components/gym/AddMemberForm.tsx:59-125 | the schema is checked first. Then the contact, trainer and plan checks run in that order, each error holding exactly when the earlier checks passed and its own failed, and a rejection changes nothing. A success appends exactly one member with the given fields (empty middle and absent trainer stored as null) under the next key, and keeps the store valid |
| AddMemberForm.AsWrittenRejectsOnlyTaken | src/components/gym/AddMemberForm.tsx:62-72 | the duplicate check as written rejects only contacts that some member holds |
| AddMemberForm.AsWrittenMissesSplitClash | src/components/gym/AddMemberForm.tsx:63-72 | with the phone held by one member and the email by another, the check as written lets the insert through and the contacts stop being unique |
| AddMemberForm.ContactCheckKeepsContactsUnique | src/components/gym/AddMemberForm.tsx:62-114 | the intended check ("any member holding either value rejects") keeps phone numbers and emails unique across all members |
| UpdateMemberForm.Submit | src/components/gym/UpdateMemberForm.tsx:29-75 | after the schema, a missing member is rejected, then a contact held by a different member is rejected, with no change. A success changes only `phone_number` and `email` of that member, with every other field and member as before, and keeps the store valid |
| UpdateMemberForm.OwnContactNeverClashes | src/components/gym/UpdateMemberForm.tsx:44-55 | a member's own current phone and email never count as a clash with another member |
| UpdateMemberForm.AsWrittenMissesSplitClash | src/components/gym/UpdateMemberForm.tsx:45-55 | with the new phone held by one other member and the new email by another, the check as written lets the update through and the contacts stop being unique |
| DeleteMemberForm.Submit | src/components/gym/DeleteMemberForm.tsx:27-58 | after the schema, a missing member is rejected with no change. A success performs the cascading delete, keeps the store valid and keeps trainer capacity |
| DeleteMemberForm.MemberRemovedIsExact | src/components/gym/DeleteMemberForm.tsx:42-47 | after the delete no member, attendance, enrollment or assignment row refers to the member (the cascade the comment and the warning promise); every row that did not refer to it remains; no other table changes |
| AssignTrainerForm.Submit | src/components/gym/AssignTrainerForm.tsx:48-116 | after the schema: a trainer without a `personal_trainer` row is rejected, then a missing member, then an existing pair, then a count at or above `max_members` (skipped when the count is null), and a rejection changes nothing. A success appends exactly one `train` row, leaves `member` unchanged, and, when the count was known, leaves the trainer within `max_members` |
| RecordAttendanceForm.Submit | src/components/gym/RecordAttendanceForm.tsx:49-108 | after the schema: a missing class is rejected, then a missing member, then an existing (date, class, member) row, and a rejection changes nothing. A success appends exactly one attendance row with those values under the next key, changes no other table and keeps the store valid |
| TrainersListView.BuildTypesMap | src/components/gym/TrainersListView.tsx:57-71 | the two loops build exactly the map that writes every personal row and then every group row |
| TrainersListView.PersonalRowKept | src/components/gym/TrainersListView.tsx:57-64 | a personal trainer with no group row maps to type Personal with `max_value = max_members` |
| TrainersListView.GroupRowWins | src/components/gym/TrainersListView.tsx:65-71 | a group trainer maps to type Group with `max_value = max_classes`, also when it has a personal row |
| TrainersListView.UntypedTrainer | src/components/gym/TrainersListView.tsx:136-152 | a trainer in neither table has no type, shows "-" as its type and an empty limit |
| TrainersListView.LimitLabel | src/components/gym/TrainersListView.tsx:145-152 | the limit is "N members" for Personal and "N classes" for Group, and empty exactly when there is no type |
| TrainersListView.DisplayName | src/components/gym/TrainersListView.tsx:123 | the name is the first name and a space, then the middle name and a space when it is non-empty, then the last name |
| TrainersListView.Lines | src/components/gym/TrainersListView.tsx:117-121 | one line per trainer of the reply, in the reply's order |
| TrainersListView.LinesInIdOrder | src/components/gym/TrainersListView.tsx:38-41 | a reply ordered by ascending `trainer_id` gives lines in ascending `trainer_id` |
| TrainersListView.EmptyNotice | src/components/gym/TrainersListView.tsx:92-98 | the "no trainers" notice is shown exactly when there are no trainers |
| Text.Decimal | src/components/gym/TrainersListView.tsx:149 | a whole number renders as "-" exactly when it is negative, followed by decimal digits without a leading zero that read back to its absolute value |
| Text.DecimalInjective | src/components/gym/AssignTrainerForm.tsx:95 | two numbers with the same rendering are equal |
| Text.DigitsRoundTrip | src/components/gym/TrainersListView.tsx:149 | reading back the rendered digits of a number gives the number |
| ClassFillRateView.ToFillRate | src/components/gym/ClassFillRateView.tsx:37-44 | each column is defaulted on its own: a null `class_id`, `enrolled`, `max_capacity` or percent becomes 0, a null `class_name` or `schedule_time` becomes "", and every non-null column is kept as it is |
| ClassFillRateView.ToFillRates | src/components/gym/ClassFillRateView.tsx:30-44 | the cards have the same length and order as the reply (ordered by `schedule_time`), one per row |
| ClassFillRateView.StatusBands | src/components/gym/ClassFillRateView.tsx:89-97 | each card gets exactly one label: at least 100 is Full, 80 to 99 Almost Full, 50 to 79 Good Attendance, below 50 Available Spots |
| ClassFillRateView.Badge | src/components/gym/ClassFillRateView.tsx:89-97 | the label shown is "Full" exactly at 100 or more, "Almost Full" exactly from 80 to 99, "Good Attendance" exactly from 50 to 79 and "Available Spots" exactly below 50 |
| ClassFillRateView.StatusTextDistinct | src/components/gym/ClassFillRateView.tsx:89-97 | the four statuses show four different labels |
| ClassFillRateView.StatusMonotone | src/components/gym/ClassFillRateView.tsx:89-97 | a higher fill percent never yields a less full label |
| ClassFillRateView.EmptyNotice | src/components/gym/ClassFillRateView.tsx:104-108 | "No classes available" is shown exactly when there are no cards |

## Left out

- Network, UI and library plumbing is not modelled: the hosted client, React state and hooks, toasts, `isLoading`, `form.reset` and the JSX around the cells.
- Writes always succeed in the model. An insert, update or delete refused by the database (an undeclared constraint, a network error) would surface as a toast with the database's message. The model does not cover that path.
- Every lookup answers from the in-memory tables. In the application, a lookup whose request fails returns no data and reads as "not found".
- Lookups by key use plain existence. Keys are unique under `Valid()`, so `.maybeSingle()` returns the same answer there. `.maybeSingle()` itself is modelled only where it changes the outcome: the two contact checks, listed under Findings.
- The `.or(...)` filter is built by string interpolation. A phone or email containing a comma or parenthesis changes the query; the model does not cover this.
- AddMemberForm.Submit: the schema check keeps only the length bounds. It leaves out the email format check, which belongs to the validation library. Lengths count characters, not UTF-16 code units.
- UpdateMemberForm.Submit: the schema check is weaker in the same way (no email format check).
- Ids are integers. An empty form field is `None`, and the string-to-number conversion of id fields is not modelled.
- `join_date` and attendance `date` are taken as given strings. Today's-date defaults and date or number formatting (`toISOString`, `toLocaleDateString`, `toFixed`) are not modelled, so trainer lines omit join date, hourly rate and rating.
- AssignTrainerForm.Submit: a null `count` is the parameter `countLost`. Trainer capacity is kept only when the count is known: with a null count the check is skipped and a trainer can exceed `max_members`. For this reason `WithinCapacity` is not part of `Valid()`.
- The `class_fill_rate` view and the `member_schedule` function live in the database and are not modelled. View rows are inputs; `fill_percent` is a whole number, so its rounding from a float is not modelled.
- Ordering by `trainer_id` or `schedule_time` is done by the database. The model takes the reply's order as given and proves that the views keep it.
- Check-then-act races between a form's lookups and its write are not modelled: they are concurrency, and the application does not address them.
- The take-class form is not part of this model, so enrollment capacity is not modelled. The list views of members, classes and memberships, the member schedule view and the page shell only fetch and render, and are not modelled either.

## Findings

| source | as written | input that shows it | evidently intended | confidence | as-written member | corrected member |
|---|---|---|---|---|---|---|
| src/components/gym/AddMemberForm.tsx:63-72 | the duplicate check sends `.or(phone, email)` and reads the reply with `.maybeSingle()`, which returns no row when two members match | member 1 holds phone 5550000001; member 2 holds email bo@gym.example; a new member with phone 5550000001 and email bo@gym.example is inserted | any existing member holding the phone or the email rejects the new member | not executed; medium (depends on the database having no unique constraint of its own) | AddMemberForm.AsWrittenMissesSplitClash | AddMemberForm.ContactCheckKeepsContactsUnique |
| src/components/gym/UpdateMemberForm.tsx:45-55 | the same `.or(...)` with `.neq(member_id)` read with `.maybeSingle()` returns no row when two other members match | members 1 and 2 hold phone 5550000001 and email bo@gym.example; member 3 is updated to that phone and that email | any other member holding the new phone or email rejects the update | not executed; medium (same dependency) | UpdateMemberForm.AsWrittenMissesSplitClash | Store.ContactChangedKeepsConsistent |

In both forms the model's `Submit` uses the intended checks, `Schema.ContactTaken` and `Schema.ContactTakenByOther`.
