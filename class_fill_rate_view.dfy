/** The class fill-rate cards: each `class_fill_rate` row with its null
    fields defaulted, and the status label chosen from the fill percent. */
module ClassFillRateView {
  import opened Relational

  /** A row of the `class_fill_rate` view, where every column is nullable.
      The percent is taken as the whole number the card shows. */
  datatype FillRateViewRow = FillRateViewRow(
    classId: Option<int>,
    className: Option<string>,
    scheduleTime: Option<string>,
    enrolled: Option<int>,
    maxCapacity: Option<int>,
    fillPercent: Option<int>)

  datatype FillRate = FillRate(
    classId: int,
    className: string,
    scheduleTime: string,
    enrolled: int,
    maxCapacity: int,
    fillPercent: int)

  /** `x || 0`: null and 0 both give 0. */
  function OrZero(x: Option<int>): int {
    if x.Some? then x.value else 0
  }

  /** `s || ""`: null and "" both give "". */
  function OrEmpty(s: Option<string>): string {
    if s.Some? then s.value else ""
  }

  /** One card: each null column gets its default, each present one is kept. */
  function ToFillRate(row: FillRateViewRow): (f: FillRate)
    ensures row.classId.None? ==> f.classId == 0
    ensures row.className.None? ==> f.className == ""
    ensures row.scheduleTime.None? ==> f.scheduleTime == ""
    ensures row.enrolled.None? ==> f.enrolled == 0
    ensures row.maxCapacity.None? ==> f.maxCapacity == 0
    ensures row.fillPercent.None? ==> f.fillPercent == 0
    ensures row.classId.Some? ==> f.classId == row.classId.value
    ensures row.className.Some? ==> f.className == row.className.value
    ensures row.scheduleTime.Some? ==> f.scheduleTime == row.scheduleTime.value
    ensures row.enrolled.Some? ==> f.enrolled == row.enrolled.value
    ensures row.maxCapacity.Some? ==> f.maxCapacity == row.maxCapacity.value
    ensures row.fillPercent.Some? ==> f.fillPercent == row.fillPercent.value
  {
    FillRate(OrZero(row.classId), OrEmpty(row.className), OrEmpty(row.scheduleTime),
             OrZero(row.enrolled), OrZero(row.maxCapacity), OrZero(row.fillPercent))
  }

  /** The `.map` over the reply (already ordered by `schedule_time`): one card
      per row, in the same order. */
  function ToFillRates(rows: seq<FillRateViewRow>): (r: seq<FillRate>)
    ensures |r| == |rows|
    ensures forall i :: 0 <= i < |rows| ==> r[i] == ToFillRate(rows[i])
  {
    if rows == [] then [] else [ToFillRate(rows[0])] + ToFillRates(rows[1..])
  }

  datatype FillStatus = Full | AlmostFull | GoodAttendance | AvailableSpots

  /** The status label of a card. */
  function Status(fillPercent: int): FillStatus {
    if fillPercent >= 100 then Full
    else if fillPercent >= 80 then AlmostFull
    else if fillPercent >= 50 then GoodAttendance
    else AvailableSpots
  }

  function StatusText(s: FillStatus): string {
    match s
    case Full => "Full"
    case AlmostFull => "Almost Full"
    case GoodAttendance => "Good Attendance"
    case AvailableSpots => "Available Spots"
  }

  /** The label a card shows for its fill percent. */
  function Badge(fillPercent: int): (s: string)
    ensures s == "Full" <==> fillPercent >= 100
    ensures s == "Almost Full" <==> 80 <= fillPercent < 100
    ensures s == "Good Attendance" <==> 50 <= fillPercent < 80
    ensures s == "Available Spots" <==> fillPercent < 50
  {
    StatusBands(fillPercent);
    StatusText(Status(fillPercent))
  }

  /** Different statuses show different labels. */
  lemma StatusTextDistinct(a: FillStatus, b: FillStatus)
    requires StatusText(a) == StatusText(b)
    ensures a == b
  {
  }

  /** How full a label says the class is, from 0 (Available Spots) to 3 (Full). */
  function Fullness(s: FillStatus): nat {
    match s
    case AvailableSpots => 0
    case GoodAttendance => 1
    case AlmostFull => 2
    case Full => 3
  }

  /** Each label covers exactly one band of percentages. */
  lemma StatusBands(p: int)
    ensures Status(p) == Full <==> p >= 100
    ensures Status(p) == AlmostFull <==> 80 <= p < 100
    ensures Status(p) == GoodAttendance <==> 50 <= p < 80
    ensures Status(p) == AvailableSpots <==> p < 50
  {
  }

  /** A higher percent never gives a less full label. */
  lemma StatusMonotone(p: int, q: int)
    requires p <= q
    ensures Fullness(Status(p)) <= Fullness(Status(q))
  {
  }

  /** The notice shown when there are no cards. */
  function EmptyNotice(rates: seq<FillRate>): (n: Option<string>)
    ensures n.Some? <==> rates == []
  {
    if rates == [] then Some("No classes available") else None
  }
}
