# Hotel backend: occupancy report and service rules

A Dafny model of the application services of a hotel operations backend, as their
NUnit tests describe them:

- **Occupancy report** (`Occupancy`, `OccupancyProperties`): `GenerateOccupancyReport(startDate, endDate)`
  refuses an inverted range, counts the inclusive days of the range, asks the occupancy
  repository for five figures (room count, income, occupied room-days, per-type records,
  per-day records) and assembles an `OccupancyReport`. The global rate is occupied
  room-days over `totalRooms * days`, and 0 when there are no rooms. Each daily record
  becomes an entry that carries the global room count and its own guarded rate. The
  per-type records, the income and the room count pass through unchanged, in order and
  with duplicates. Repository exceptions propagate with their message, and a null
  per-type list fails with a null-reference error.
- **Reservations** (`Reservations`): a reservation whose start is after its end is
  refused. Otherwise it is added once. Cancelling a room removes that room's links
  from the reservation's `ReservationRooms` list in place, then saves the reservation
  once with `Update`. Cancelling on a missing reservation fails. The booking history
  is the repository's list, unchanged.
- **Check-in notification job** (`CheckInJob`): `Execute` asks for the upcoming
  reservations within the days-ahead window the job was built with. It sends exactly
  one notification (address, name, start date) for each reservation whose user exists
  and has a non-empty e-mail. A failed send is recorded and the job carries on.
- **Rooms** (`Rooms`): registration refuses an empty room number. Search filters the
  inventory by type and optional price bounds. Availability keeps the DISPONIBLE
  rooms that have no reservation in the range.

The implementation classes are not part of this model; only their tests are. So each
operation follows the behaviour those tests assert. Repository and notification-service
calls become inputs:

- a `Reply` (a value or an exception message) for each occupancy query;
- the value `GetById` returned;
- functions for `GetUpcomingReservations`, `SendCheckInNotification` and
  `HasReservationsInDateRange`.

Calls the services make (`Add`, `Update`, sends) are recorded as traces in the
service objects. Dates are day numbers. Rates are exact `real`s.

The files are `outcomes.dfy` (error and result types), `occupancy.dfy`,
`occupancy_properties.dfy`, `reservations.dfy`, `checkin_job.dfy` and `rooms.dfy`.
Together they verify with Dafny 4.11.

## Model

| member | source | states |
|---|---|---|
| Occupancy.Query | Application/Services/OccupancyReportServiceTests.cs:471-529 | a repository call yields its value, or fails with an exception carrying the repository's own message |
| Occupancy.Dereference | Application/Services/OccupancyReportServiceTests.cs:532-549 | a list the repository returned as null fails with a null-reference error on use; a real list is used as it is |
| Occupancy.DaysInPeriod | Application/Services/OccupancyReportServiceTests.cs:154-180 | the inclusive day count `(end - start).Days + 1` is at least 1 for a valid range and exactly 1 for a same-day range |
| Occupancy.GlobalRate | Application/Services/OccupancyReportServiceTests.cs:93-118 | with rooms, rate × (rooms × days) equals the occupied room-days; with no rooms, the rate is 0 |
| Occupancy.DailyRate | Application/Services/OccupancyReportServiceTests.cs:441-469 | with rooms, daily rate × rooms equals the rooms occupied that day; with no rooms, 0 |
| Occupancy.DailyEntries | Application/Services/OccupancyReportServiceTests.cs:350-379 | one entry per raw daily record, same length and same order; each keeps its day and occupied count, carries the global room count and the guarded daily rate |
| Occupancy.TypeEntries | Application/Services/OccupancyReportServiceTests.cs:121-151 | one entry per raw per-type record, in order, with label, reservation count, occupied days and room count unchanged |
| Occupancy.GenerateOccupancyReport | Application/Services/OccupancyReportServiceTests.cs:551-561 | an inverted range fails with an argument error whatever the repository holds; a report exists iff the range is valid, every query returned and neither list is null; every other failure is a null reference or an exception; a report passes room count and income through, and its rate and lists are the guarded rate and the two mappings |
| OccupancyProperties.SingleFailurePropagates | Application/Services/OccupancyReportServiceTests.cs:471-529 | when exactly one of the five queries throws, the call fails with that exception and message, whichever query it was, and no report is produced |
| OccupancyProperties.FailuresComeFromRepository | Application/Services/OccupancyReportServiceTests.cs:471-529 | an exception the call reports carries the message one of the five queries threw, whichever queries failed |
| OccupancyProperties.NullTypeListFails | Application/Services/OccupancyReportServiceTests.cs:532-549 | a null per-type list makes the call fail with a null-reference error, not an empty breakdown |
| OccupancyProperties.GlobalRateBounds | Application/Services/OccupancyReportServiceTests.cs:52-90 | with occupied room-days between 0 and the possible room-days, the global rate lies in [0, 1], and with rooms it is 1 exactly when every room-day is occupied |
| OccupancyProperties.FullDays | Application/Services/OccupancyReportServiceTests.cs:52-90 | a day with every room occupied appears in the daily breakdown with all rooms occupied and rate 1 |
| OccupancyProperties.FullOccupancy | Application/Services/OccupancyReportServiceTests.cs:52-90 | all rooms occupied on all days gives a global rate of exactly 1, and every daily entry reports all rooms occupied with rate 1 |
| OccupancyProperties.ZeroRoomsGiveZeroRates | Application/Services/OccupancyReportServiceTests.cs:183-217 | with no rooms, the global rate and every daily rate are 0 and every daily entry reports 0 rooms, whatever the occupied counts |
| OccupancyProperties.DailyOrderPreserved | Application/Services/OccupancyReportServiceTests.cs:350-379 | the report's sequence of days equals the repository's sequence of days: never re-sorted, nothing added or dropped |
| OccupancyProperties.TypeLabelsPreserved | Application/Services/OccupancyReportServiceTests.cs:407-438 | the room-type labels of the breakdown are the repository's labels in order, duplicates kept (equal as sequences and as multisets) |
| OccupancyProperties.DailyRatesAddUp | Application/Services/OccupancyReportServiceTests.cs:288-321 | with rooms, the sum of the daily rates times the room count equals the sum of the daily occupied counts |
| OccupancyProperties.GlobalRateIsMeanOfDailyRates | Application/Services/OccupancyReportServiceTests.cs:288-321 | when the daily list has one record per day and its counts add up to the occupied room-days, the global rate is the mean of the daily rates |
| OccupancyProperties.DailyPercentages | Application/Services/OccupancyReportServiceTests.cs:441-469 | with 4 rooms and 0, 2 and 4 rooms occupied, the daily rates are 0, 0.5 and 1 |
| Reservations.Reservation.constructor | Application/Services/ReservationServiceTests.cs:25 | a new reservation has the given id and dates and no rooms |
| Reservations.Reservation.AddRoom | Application/Services/ReservationServiceTests.cs:46 | adding a room link appends it to `ReservationRooms` and changes nothing else |
| Reservations.WithoutRoom | Application/Services/ReservationServiceTests.cs:42-54 | removing a room shortens the list by exactly the number of its links, so one link gives a count from 1 to 0; the scenario method `CancelOnlyRoom` replays this test on the classes: one link, cancelled, leaves no links and one `Update` |
| Reservations.WithoutRoomMembers | Application/Services/ReservationServiceTests.cs:42-54 | a link is kept iff it was in the list and is for another room |
| Reservations.WithoutRoomAppend | Application/Services/ReservationServiceTests.cs:42-54 | removing a room distributes over concatenation, so the kept links stay in their original order |
| Reservations.WithoutAbsentRoom | Application/Services/ReservationServiceTests.cs:42-54 | cancelling a room the reservation does not hold leaves its list unchanged |
| Reservations.ReservationService.RegisterReservation | Application/Services/ReservationServiceTests.cs:22-40 | succeeds iff start is not after end; on success the reservation is passed to `Add` exactly once; otherwise it fails with "Las fechas de la reserva son inválidas." and nothing is added |
| Reservations.ReservationService.CancelRoomInReservation | Application/Services/ReservationServiceTests.cs:42-63 | a missing reservation fails with "La reserva no existe." and nothing is saved; otherwise the room's links are removed from the reservation in place, its other fields are kept, and it is passed to `Update` exactly once |
| Reservations.ReservationService.GetReservationsByClientId | Application/Services/ReservationServiceTests.cs:65-83 | the history is what the repository's `GetByClientId` returns for the client id the service was given, unchanged, and empty when that list is empty |
| CheckInJob.NoticeFor | Application/Services/Jobs/CheckInNotificationJobTests.cs:37-57 | a notification carries the user's e-mail, the user's name and the reservation's start date |
| CheckInJob.Notices | Application/Services/Jobs/CheckInNotificationJobTests.cs:119-131 | there are never more notifications than upcoming reservations |
| CheckInJob.NoticesEligibleOnly | Application/Services/Jobs/CheckInNotificationJobTests.cs:60-93 | every notification goes to a non-empty address, and there are none exactly when no reservation has a user with a non-empty e-mail |
| CheckInJob.OneNoticePerEligible | Application/Services/Jobs/CheckInNotificationJobTests.cs:37-93 | each eligible reservation contributes exactly one notification at its own position; a reservation with no user or an empty e-mail contributes none |
| CheckInJob.Undelivered | Application/Services/Jobs/CheckInNotificationJobTests.cs:97-116 | there are never more failed sends than attempted ones |
| CheckInJob.UndeliveredAreRefused | Application/Services/Jobs/CheckInNotificationJobTests.cs:97-116 | the failed sends are exactly the attempted notifications the sender answered false to |
| CheckInJob.NoticesAppend | Application/Services/Jobs/CheckInNotificationJobTests.cs:37-57 | the notifications for a concatenation are those of its parts, in order |
| CheckInJob.CheckInNotificationJob.constructor | Application/Services/Jobs/CheckInNotificationJobTests.cs:29-33 | the job keeps the days-ahead value it is built with and has sent nothing |
| CheckInJob.CheckInNotificationJob.Execute | Application/Services/Jobs/CheckInNotificationJobTests.cs:37-131 | asks for upcoming reservations with the job's own days-ahead value and appends exactly the notifications for its eligible ones to the sent trace; whatever the sender answers, every one is attempted once, refused ones are recorded, and the job does not fail |
| Rooms.NewRoom | Application/Services/RoomServiceTests.cs:23-35 | the registered room has the given number, type, price and capacity and status DISPONIBLE |
| Rooms.RoomService.RegisterRoom | Application/Services/RoomServiceTests.cs:23-43 | an empty room number fails with "El número de habitación es obligatorio" and adds nothing; otherwise the new room is added once and returned |
| Rooms.SearchRooms | Application/Services/RoomServiceTests.cs:65-76 | the result is never longer than the inventory, so an empty inventory gives an empty result |
| Rooms.SearchRoomsMembers | Application/Services/RoomServiceTests.cs:46-76 | a room is in the result iff it is in the inventory, has the requested type and meets each price bound that is given |
| Rooms.SearchRoomsAppend | Application/Services/RoomServiceTests.cs:46-62 | searching a concatenation searches each part, so results keep inventory order |
| Rooms.SearchByTypeOnly | Application/Services/RoomServiceTests.cs:46-62 | with no price bounds, searching SIMPLE among a SIMPLE and a DOBLE room returns exactly the SIMPLE one |
| Rooms.CheckAvailability | Application/Services/RoomServiceTests.cs:98-109 | never more rooms are available than the inventory holds |
| Rooms.AvailableMembers | Application/Services/RoomServiceTests.cs:79-95 | a room is available iff it is in the inventory, has status DISPONIBLE and has no reservation in the range |
| Rooms.AllFreeRoomsAvailable | Application/Services/RoomServiceTests.cs:79-95 | when no DISPONIBLE room has a reservation in the range, every one of them is returned, in order |
| Rooms.NoFreeRoomsNoAvailability | Application/Services/RoomServiceTests.cs:98-109 | with no DISPONIBLE room, availability is empty |

## Left out

- The service implementations are not part of this model; each operation follows what the tests assert. Where the tests leave something open, the model makes a choice:
  - Occupancy queries run in the order rooms, income, occupied days, per-type list, daily list. A null list fails when it is first used. Only one failing query at a time is proved order-independent.
  - Cancelling removes every link to the room. The tests hold only one.
  - A same-day reservation is valid.
  - Search price bounds are inclusive, and the room type is always given.
  - Only the empty room number is refused. Whitespace-only numbers and the other fields are not validated.
  - Cancelling a room the reservation does not hold is not an error. Nothing is removed, the call succeeds and `Update` is still called once. The tests cancel only a room that is present.
  - A registered room is built with id 0, which the database replaces, and status DISPONIBLE. The tests check only the room number.
  - `CheckAvailability` does not validate its dates. An inverted range is passed to the repository like any other. The tests only use valid dates, and the invalid-dates path their name suggests is not visible.
  - A user is notified when the e-mail is not the empty string. A null `EMAIL` cannot be expressed, because `email` is a `string`. A whitespace-only address is sent to.
- Occupancy.GenerateOccupancyReport: the text of the ArgumentException message is not observable in the tests, so `InvalidRangeMessage` is a placeholder. Only the error class is modelled.
- How the repository computes occupied room-days, income and the per-type and daily figures is not modelled. The service takes them as given. This covers clipping to the range, de-duplicating overlaps and multiplying by room count.
- `double` and `decimal` rounding: both rates are exact reals.
- 32-bit overflow of `totalRooms * days` is not modelled. Integers are unbounded.
- Dates are whole day numbers. The time-of-day part of `DateTime` and the truncation in `.Days` are not modelled.
- The occupancy repository is a fixed set of answers for the requested range. Calls with a different range are not modelled.
- The status of a reservation is never read by the rules, so it is not modelled. `RoomStatus` names only DISPONIBLE, because the enum's other members are not visible.
- The booking-history lookup `GetByClientId` belongs to the repository. The model takes it as a function from client id to reservation list.
- The user repository the job is built with is never consulted in the tests. A reservation with no loaded user gets no notification.
- The fourth argument of `SendCheckInNotification` is not modelled, because its content is not visible. The error log written on a failed send is modelled as the trace of failed sends.
- Not modelled, because they are outside these services:
  - e-mail transport (SMTP);
  - the notification message template;
  - authentication and tokens;
  - billing prices;
  - the EF Core repositories;
  - customer services;
  - scheduling of the job.
