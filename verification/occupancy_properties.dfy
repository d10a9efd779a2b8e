/** Properties of the occupancy report: rates, zero-room guard, order and
    pass-through of the breakdowns, and error propagation. */
module OccupancyProperties {
  import opened Outcomes
  import opened Occupancy

  /** Exactly one of the five repository queries throws, with message `m`; the others
      return, and neither list is null. */
  predicate OnlyFailure(source: OccupancySource, m: string) {
    var rooms := source.totalRooms.Threw?;
    var income := source.totalIncome.Threw?;
    var occupied := source.totalOccupiedDays.Threw?;
    var byType := source.occupancyByType.Threw?;
    var daily := source.dailyOccupancy.Threw?;
    && (if rooms then 1 else 0) + (if income then 1 else 0) + (if occupied then 1 else 0)
       + (if byType then 1 else 0) + (if daily then 1 else 0) == 1
    && (rooms ==> source.totalRooms.message == m)
    && (income ==> source.totalIncome.message == m)
    && (occupied ==> source.totalOccupiedDays.message == m)
    && (byType ==> source.occupancyByType.message == m)
    && (daily ==> source.dailyOccupancy.message == m)
    && (!byType ==> source.occupancyByType.value.Some?)
    && (!daily ==> source.dailyOccupancy.value.Some?)
  }

  /** A repository exception reaches the caller as it was raised, with its message,
      whichever query raised it, and no report is produced. */
  lemma SingleFailurePropagates(startDate: Day, endDate: Day, source: OccupancySource, m: string)
    requires startDate <= endDate
    requires OnlyFailure(source, m)
    ensures GenerateOccupancyReport(startDate, endDate, source) == Err(Failure(m))
  {
  }

  /** Every exception the call reports comes from the repository: its message is the
      message one of the five queries threw, whichever of them failed. */
  lemma FailuresComeFromRepository(startDate: Day, endDate: Day, source: OccupancySource)
    ensures
      var r := GenerateOccupancyReport(startDate, endDate, source);
      r.Err? && r.error.Failure? ==>
        || source.totalRooms == Threw(r.error.message)
        || source.totalIncome == Threw(r.error.message)
        || source.totalOccupiedDays == Threw(r.error.message)
        || source.occupancyByType == Threw(r.error.message)
        || source.dailyOccupancy == Threw(r.error.message)
  {
  }

  /** A null per-type list is not taken for an empty one: the call fails with a
      null-reference error. */
  lemma NullTypeListFails(startDate: Day, endDate: Day, source: OccupancySource)
    requires startDate <= endDate
    requires source.totalRooms.Returned? && source.totalIncome.Returned? && source.totalOccupiedDays.Returned?
    requires source.occupancyByType == Returned(None)
    ensures GenerateOccupancyReport(startDate, endDate, source) == Err(NullReference)
  {
  }

  /** With occupied room-days between 0 and the possible room-days, the global rate lies
      in [0, 1], and it is 1 exactly when every possible room-day is occupied. */
  lemma GlobalRateBounds(totalRooms: int, occupiedDays: int, days: int)
    requires days >= 1
    requires 0 <= occupiedDays <= totalRooms * days
    ensures 0.0 <= GlobalRate(totalRooms, occupiedDays, days) <= 1.0
    ensures totalRooms > 0 ==> (GlobalRate(totalRooms, occupiedDays, days) == 1.0 <==> occupiedDays == totalRooms * days)
  {
    if totalRooms > 0 {
      var possible := (totalRooms * days) as real;
      assert possible >= 1.0 by {
        assert totalRooms * days >= totalRooms * 1;
      }
      var rate := GlobalRate(totalRooms, occupiedDays, days);
      assert rate * possible == occupiedDays as real;
      if rate == 1.0 {
        assert occupiedDays as real == possible;
      }
      if occupiedDays == totalRooms * days {
        assert (rate - 1.0) * possible == 0.0;
      }
    }
  }

  /** Full occupancy: when every room is occupied on every day, the global rate and
      every daily rate are exactly 1 and every entry reports all rooms occupied. */
  lemma FullOccupancy(startDate: Day, endDate: Day, source: OccupancySource)
    requires startDate <= endDate && Answered(source)
    requires source.totalRooms.value > 0
    requires source.totalOccupiedDays.value == source.totalRooms.value * DaysInPeriod(startDate, endDate)
    requires forall d :: d in source.dailyOccupancy.value.value ==> d.occupiedRooms == source.totalRooms.value
    ensures GenerateOccupancyReport(startDate, endDate, source).Ok?
    ensures GenerateOccupancyReport(startDate, endDate, source).value.occupancyRate == 1.0
    ensures forall e :: e in GenerateOccupancyReport(startDate, endDate, source).value.dailyOccupancy ==>
      e.occupiedRooms == source.totalRooms.value && e.occupancyRateDay == 1.0
  {
    GlobalRateBounds(source.totalRooms.value, source.totalOccupiedDays.value, DaysInPeriod(startDate, endDate));
    FullDays(source.dailyOccupancy.value.value, source.totalRooms.value);
  }

  /** A day with every room occupied has rate 1 in the daily breakdown. */
  lemma FullDays(raw: seq<DayRecord>, totalRooms: int)
    requires totalRooms > 0
    requires forall d :: d in raw ==> d.occupiedRooms == totalRooms
    ensures forall e :: e in DailyEntries(raw, totalRooms) ==> e.occupiedRooms == totalRooms && e.occupancyRateDay == 1.0
  {
    var entries := DailyEntries(raw, totalRooms);
    forall e | e in entries
      ensures e.occupiedRooms == totalRooms && e.occupancyRateDay == 1.0
    {
      var i :| 0 <= i < |entries| && entries[i] == e;
      assert raw[i] in raw;
    }
  }

  /** No rooms: the global rate and every daily rate are 0 and every daily entry
      reports 0 rooms, whatever the occupied counts. */
  lemma ZeroRoomsGiveZeroRates(startDate: Day, endDate: Day, source: OccupancySource)
    requires startDate <= endDate && Answered(source)
    requires source.totalRooms.value == 0
    ensures GenerateOccupancyReport(startDate, endDate, source).Ok?
    ensures GenerateOccupancyReport(startDate, endDate, source).value.occupancyRate == 0.0
    ensures forall e :: e in GenerateOccupancyReport(startDate, endDate, source).value.dailyOccupancy ==>
      e.totalRooms == 0 && e.occupancyRateDay == 0.0
  {
  }

  /** The daily list follows the repository's list day by day: same length, same days
      in the same order, never re-sorted. */
  lemma DailyOrderPreserved(startDate: Day, endDate: Day, source: OccupancySource)
    requires startDate <= endDate && Answered(source)
    ensures
      var report := GenerateOccupancyReport(startDate, endDate, source).value;
      var raw := source.dailyOccupancy.value.value;
      DaysOfEntries(report.dailyOccupancy) == DaysOfRecords(raw)
  {
  }

  /** The days of the report's daily entries, in order. */
  function DaysOfEntries(entries: seq<DailyOccupancy>): seq<Day> {
    seq(|entries|, i requires 0 <= i < |entries| => entries[i].day)
  }

  /** The days of the repository's daily records, in order. */
  function DaysOfRecords(raw: seq<DayRecord>): seq<Day> {
    seq(|raw|, i requires 0 <= i < |raw| => raw[i].day)
  }

  /** The room-type labels of the per-type breakdown are the repository's labels, in
      order and with duplicates kept. */
  lemma TypeLabelsPreserved(raw: seq<TypeRecord>)
    ensures LabelsOfEntries(TypeEntries(raw)) == LabelsOfRecords(raw)
    ensures multiset(LabelsOfEntries(TypeEntries(raw))) == multiset(LabelsOfRecords(raw))
  {
  }

  function LabelsOfEntries(entries: seq<RoomTypeOccupancy>): seq<string> {
    seq(|entries|, i requires 0 <= i < |entries| => entries[i].roomType)
  }

  function LabelsOfRecords(raw: seq<TypeRecord>): seq<string> {
    seq(|raw|, i requires 0 <= i < |raw| => raw[i].roomType)
  }

  /** Occupied rooms summed over the raw daily records. */
  function OccupiedTotal(raw: seq<DayRecord>): int {
    if raw == [] then 0 else raw[0].occupiedRooms + OccupiedTotal(raw[1..])
  }

  /** Daily rates summed over the report's daily entries. */
  function RateTotal(entries: seq<DailyOccupancy>): real {
    if entries == [] then 0.0 else entries[0].occupancyRateDay + RateTotal(entries[1..])
  }

  /** With rooms in the inventory, the daily rates add up to the occupied rooms of all
      days over the room count. */
  lemma {:induction false} DailyRatesAddUp(raw: seq<DayRecord>, totalRooms: int)
    requires totalRooms > 0
    ensures RateTotal(DailyEntries(raw, totalRooms)) * totalRooms as real == OccupiedTotal(raw) as real
  {
    if raw != [] {
      var entries := DailyEntries(raw, totalRooms);
      DailyRatesAddUp(raw[1..], totalRooms);
      assert entries[1..] == DailyEntries(raw[1..], totalRooms);
      calc {
        RateTotal(entries) * totalRooms as real;
        (entries[0].occupancyRateDay + RateTotal(entries[1..])) * totalRooms as real;
        entries[0].occupancyRateDay * totalRooms as real + RateTotal(entries[1..]) * totalRooms as real;
        raw[0].occupiedRooms as real + OccupiedTotal(raw[1..]) as real;
      }
    }
  }

  /** When the repository's daily list covers every day of the range and its counts add
      up to the occupied room-days, the global rate is the mean of the daily rates. */
  lemma GlobalRateIsMeanOfDailyRates(startDate: Day, endDate: Day, source: OccupancySource)
    requires startDate <= endDate && Answered(source)
    requires source.totalRooms.value > 0
    requires |source.dailyOccupancy.value.value| == DaysInPeriod(startDate, endDate)
    requires OccupiedTotal(source.dailyOccupancy.value.value) == source.totalOccupiedDays.value
    ensures
      var report := GenerateOccupancyReport(startDate, endDate, source).value;
      report.occupancyRate == RateTotal(report.dailyOccupancy) / (|report.dailyOccupancy| as real)
  {
    var report := GenerateOccupancyReport(startDate, endDate, source).value;
    var rooms := source.totalRooms.value;
    var days := DaysInPeriod(startDate, endDate);
    DailyRatesAddUp(source.dailyOccupancy.value.value, rooms);
    var total := RateTotal(report.dailyOccupancy);
    assert total * rooms as real == source.totalOccupiedDays.value as real;
    assert report.occupancyRate * (rooms * days) as real == source.totalOccupiedDays.value as real;
    assert (rooms * days) as real == rooms as real * days as real;
    assert report.occupancyRate * days as real == total by {
      assert (report.occupancyRate * days as real) * rooms as real == total * rooms as real;
    }
  }

  /** Daily percentages with 4 rooms and 0, 2 and 4 rooms occupied: 0, 0.5 and 1. */
  lemma DailyPercentages(d: Day)
    ensures
      var entries := DailyEntries([DayRecord(d, 0), DayRecord(d + 1, 2), DayRecord(d + 2, 4)], 4);
      && |entries| == 3
      && entries[0].occupancyRateDay == 0.0
      && entries[1].occupancyRateDay == 0.5
      && entries[2].occupancyRateDay == 1.0
  {
  }
}
