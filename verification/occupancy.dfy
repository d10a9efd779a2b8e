/** The occupancy report: turns the occupancy repository's aggregate figures for an
    inclusive date range into a report with a global rate, a per-type breakdown and a
    per-day breakdown. Everything here is a pure function of the repository's answers. */
module Occupancy {
  import opened Outcomes

  /** One raw per-type record, as GetOccupancyByType returns it. */
  datatype TypeRecord = TypeRecord(roomType: string, reservationsCount: int, occupiedDays: int, totalRoomsType: int)

  /** One raw per-day record, as GetDailyOccupancy returns it. */
  datatype DayRecord = DayRecord(day: Day, occupiedRooms: int)

  datatype RoomTypeOccupancy = RoomTypeOccupancy(roomType: string, reservationsCount: int, occupiedDays: int, totalRoomsOfType: int)

  datatype DailyOccupancy = DailyOccupancy(day: Day, occupiedRooms: int, totalRooms: int, occupancyRateDay: real)

  datatype OccupancyReport = OccupancyReport(
    totalRooms: int,
    totalIncome: real,
    occupancyRate: real,
    occupancyByType: seq<RoomTypeOccupancy>,
    dailyOccupancy: seq<DailyOccupancy>)

  /** What one repository call did: it returned a value or threw an exception with a message. */
  datatype Reply<+T> = Returned(value: T) | Threw(message: string)

  /** The five answers of the occupancy repository for one requested range.
      The list-valued queries may also return a null reference (None). */
  datatype OccupancySource = OccupancySource(
    totalRooms: Reply<int>,
    totalIncome: Reply<real>,
    totalOccupiedDays: Reply<int>,
    occupancyByType: Reply<Option<seq<TypeRecord>>>,
    dailyOccupancy: Reply<Option<seq<DayRecord>>>)

  /** The message of the ArgumentException for an inverted range; its text is not
      observable, only its class. */
  const InvalidRangeMessage: string := "startDate must not be after endDate"

  /** Every query returned, and neither list is a null reference. */
  predicate Answered(source: OccupancySource) {
    && source.totalRooms.Returned?
    && source.totalIncome.Returned?
    && source.totalOccupiedDays.Returned?
    && source.occupancyByType.Returned? && source.occupancyByType.value.Some?
    && source.dailyOccupancy.Returned? && source.dailyOccupancy.value.Some?
  }

  /** A repository call: its value, or its exception passed on unchanged. */
  function Query<T>(reply: Reply<T>): (r: Result<T>)
    ensures r.Ok? <==> reply.Returned?
    ensures r.Ok? ==> r.value == reply.value
    ensures r.Err? ==> r.error == Failure(reply.message)
  {
    match reply
    case Returned(v) => Ok(v)
    case Threw(m) => Err(Failure(m))
  }

  /** Use of a list the repository returned: a null reference fails on dereference. */
  function Dereference<T>(list: Option<seq<T>>): (r: Result<seq<T>>)
    ensures r.Ok? <==> list.Some?
    ensures r.Ok? ==> r.value == list.value
    ensures r.Err? ==> r.error == NullReference
  {
    match list
    case Some(s) => Ok(s)
    case None => Err(NullReference)
  }

  /** The inclusive number of days of [startDate, endDate], `(end - start).Days + 1`. */
  function DaysInPeriod(startDate: Day, endDate: Day): (days: int)
    ensures startDate <= endDate ==> days >= 1
    ensures startDate == endDate ==> days == 1
    ensures startDate + days == endDate + 1
  {
    (endDate - startDate) + 1
  }

  /** Occupied room-days over possible room-days; 0 when there are no rooms. */
  function GlobalRate(totalRooms: int, occupiedDays: int, days: int): (rate: real)
    requires days >= 1
    ensures totalRooms <= 0 ==> rate == 0.0
    ensures totalRooms > 0 ==> rate * (totalRooms * days) as real == occupiedDays as real
  {
    if totalRooms > 0 then occupiedDays as real / (totalRooms * days) as real else 0.0
  }

  /** Rooms occupied on a day over the room inventory; 0 when there are no rooms. */
  function DailyRate(occupiedRooms: int, totalRooms: int): (rate: real)
    ensures totalRooms <= 0 ==> rate == 0.0
    ensures totalRooms > 0 ==> rate * totalRooms as real == occupiedRooms as real
  {
    if totalRooms > 0 then occupiedRooms as real / totalRooms as real else 0.0
  }

  /** The daily entries: one per raw record, in the repository's order, each carrying
      the global room count and its own guarded rate. */
  function DailyEntries(raw: seq<DayRecord>, totalRooms: int): (entries: seq<DailyOccupancy>)
    ensures |entries| == |raw|
    ensures forall i :: 0 <= i < |raw| ==>
      && entries[i].day == raw[i].day
      && entries[i].occupiedRooms == raw[i].occupiedRooms
      && entries[i].totalRooms == totalRooms
      && entries[i].occupancyRateDay == DailyRate(raw[i].occupiedRooms, totalRooms)
  {
    if raw == [] then []
    else
      [DailyOccupancy(raw[0].day, raw[0].occupiedRooms, totalRooms, DailyRate(raw[0].occupiedRooms, totalRooms))]
      + DailyEntries(raw[1..], totalRooms)
  }

  /** The per-type entries: one per raw record, in order, every field unchanged. */
  function TypeEntries(raw: seq<TypeRecord>): (entries: seq<RoomTypeOccupancy>)
    ensures |entries| == |raw|
    ensures forall i :: 0 <= i < |raw| ==>
      && entries[i].roomType == raw[i].roomType
      && entries[i].reservationsCount == raw[i].reservationsCount
      && entries[i].occupiedDays == raw[i].occupiedDays
      && entries[i].totalRoomsOfType == raw[i].totalRoomsType
  {
    if raw == [] then []
    else
      [RoomTypeOccupancy(raw[0].roomType, raw[0].reservationsCount, raw[0].occupiedDays, raw[0].totalRoomsType)]
      + TypeEntries(raw[1..])
  }

  /** GenerateOccupancyReport(startDate, endDate) against the repository answers `source`.
      An inverted range fails before any query; otherwise the queries run in the order
      rooms, income, occupied days, per-type list, daily list, and the first exception
      (or a null list on its first use) ends the call. */
  function GenerateOccupancyReport(startDate: Day, endDate: Day, source: OccupancySource): (r: Result<OccupancyReport>)
    ensures startDate > endDate ==> r == Err(ArgumentError(InvalidRangeMessage))
    ensures r.Ok? <==> startDate <= endDate && Answered(source)
    ensures r.Err? && startDate <= endDate ==>
      r.error == NullReference || exists m :: r.error == Failure(m)
    ensures r.Ok? ==>
      && r.value.totalRooms == source.totalRooms.value
      && r.value.totalIncome == source.totalIncome.value
      && r.value.occupancyByType == TypeEntries(source.occupancyByType.value.value)
      && r.value.dailyOccupancy == DailyEntries(source.dailyOccupancy.value.value, source.totalRooms.value)
      && r.value.occupancyRate
         == GlobalRate(source.totalRooms.value, source.totalOccupiedDays.value, DaysInPeriod(startDate, endDate))
  {
    if startDate > endDate then Err(ArgumentError(InvalidRangeMessage))
    else
      var totalRooms :- Query(source.totalRooms);
      var totalIncome :- Query(source.totalIncome);
      var occupiedDays :- Query(source.totalOccupiedDays);
      var byTypeReply :- Query(source.occupancyByType);
      var byType :- Dereference(byTypeReply);
      var dailyReply :- Query(source.dailyOccupancy);
      var daily :- Dereference(dailyReply);
      var days := DaysInPeriod(startDate, endDate);
      Ok(OccupancyReport(
        totalRooms,
        totalIncome,
        GlobalRate(totalRooms, occupiedDays, days),
        TypeEntries(byType),
        DailyEntries(daily, totalRooms)))
  }
}
