# Hotel table booking API: a Dafny model of its controllers

This project models the request handlers of a Node.js/Express hotel table
booking service. Its database is reached through the Sequelize ORM. The
handlers keep a small relational catalogue:

- hotels, each with floors, tables on the floors and seats at the tables;
- reservations of tables;
- locations and areas;
- two registries of status codes.

Every handler is modelled as a method over the tables it touches. Each
database table is a `Store.Relation`: its rows in key order plus the next
auto-increment key. A handler's answer is a `Reply`, either an HTTP status
code with data or a code with a message. The ORM calls the handlers make
(`findByPk`, `findAll`, `findOne`, `create`, `bulkCreate`, `save`, `update`,
`destroy`) are the relation's methods and the functions beside it. The
unique indexes the models declare are predicates in `Schema`, and every
handler keeps them.

Modules, one per controller, plus shared ones:

| module | file | models |
|---|---|---|
| `Common` | common.dfy | optional body fields, JavaScript truthiness, `Reply`, `String.prototype.trim`, name order |
| `Store` | store.dfy | a database table and the ORM calls on it |
| `Ordering` | ordering.dfy | `ORDER BY`: sorted and a permutation |
| `Schema` | schema.dfy | the row shapes and unique indexes |
| `Seats` | seats.dfy | controllers/seat.controller.js |
| `Provisioning` | provisioning.dfy | createHotelTable in controllers/hotelTable.controller.js |
| `Hotels` | hotels.dfy | the other handlers of controllers/hotelTable.controller.js |
| `Tables` | tables.dfy | controllers/table.controller.js |
| `Reservations` | reservations.dfy | controllers/reservation.controller.js |
| `Locations` | locations.dfy | controllers/location.controller.js |
| `Areas` | areas.dfy | controllers/area.controller.js |
| `Floors` | floors.dfy | controllers/floor.controller.js |
| `StatusMasters` | status_masters.dfy | controllers/seatStatusMaster.controller.js, controllers/diningStatusMaster.controller.js |
| `Roles` | roles.dfy | middlewares/role.middleware.js |

The controllers' loops are kept as `while` loops:

- the seat, table, floor and hotel record loops;
- the per-floor counters of the table summary;
- the two loops of the bulk location assignment.

Each loop is proved equal to a specification function. The properties
are then proved about those functions.

The controllers implement no seat-manifest protocol, row locks or
cancellation ledger: a reservation is one row whose status is set to
CANCELLED, and the model has nothing more. Some further points of the
code that the model keeps:

- Reservations of a hotel are listed in ascending reservation_date
  (controllers/reservation.controller.js:65).
- A seat carries both the schema's boolean `is_booked`, which the summary
  reads, and the numeric `status` that the seat controller writes. Nothing
  links the two.
- A reservation holds `table_id` and `status`, which its model file does
  not declare, because the reservation controller reads and writes them.

## Model

| member | source | states |
|---|---|---|
| Common.Trim | controllers/location.controller.js:37 | `trim` removes exactly the leading and trailing ECMAScript white space: the result is a slice of the input, everything cut off is white space, and the result neither starts nor ends with white space |
| Common.TrimIdempotent | controllers/location.controller.js:37 | trimming a trimmed name changes nothing |
| Common.TrimBlank | controllers/hotelTable.controller.js:170 | a string of white space only trims to the empty string |
| Common.NameLeTotal | controllers/location.controller.js:22 | the name order compares any two names |
| Common.NameLeTransitive | controllers/location.controller.js:22 | the name order is transitive |
| Store.IndexOf | controllers/hotelTable.controller.js:260 | `findByPk` finds the row with that key, or reports that no row has it |
| Store.Where | controllers/seat.controller.js:82-87 | `findAll({ where })` returns only rows that satisfy the condition and every such row; returning them in key order is the model's choice, since the query has no `order` |
| Store.Numbered | controllers/table.controller.js:48 | `bulkCreate` stores the records in order under consecutive keys |
| Store.AscendingOccursOnce | models/floor.model.js:7-11 | with auto-increment keys, no row is stored twice |
| Store.PermutedKeysDistinct | models/floor.model.js:7-11 | any ordering of a table's rows holds different keys at different positions |
| Store.Relation.Create | controllers/floor.controller.js:27-30 | `create` appends one row under the next key and keeps keys ascending |
| Store.Relation.BulkCreate | controllers/seat.controller.js:51 | `bulkCreate` appends the numbered rows and advances the key by their count |
| Store.Relation.Save | controllers/seat.controller.js:223-224 | `save` changes that row's columns and nothing else |
| Store.Relation.Update | controllers/location.controller.js:48 | `Model.update` rewrites exactly the rows matching the condition |
| Store.Relation.Destroy | controllers/seat.controller.js:109-114 | `destroy` removes exactly the rows matching the condition |
| Ordering.InsertSorted | controllers/seat.controller.js:187 | inserting into a sorted list keeps it sorted and adds exactly that element |
| Ordering.SortBy | controllers/seat.controller.js:187 | `ORDER BY` returns the same rows (a permutation) in ascending order of the key |
| Ordering.SortByMembers | controllers/seat.controller.js:187 | the sorted rows are exactly the rows |
| Seats.StateOf | controllers/seat.controller.js:4-9 | a status code is accepted exactly when it is one of BOOKED=1, CANCEL=2, CLEANING=3, AVAILABLE=4, and it names the state with that code |
| Seats.StateOfCode | controllers/seat.controller.js:4-9 | the four codes are distinct: each state reads back from its own code |
| Seats.LastSeatNumber | controllers/seat.controller.js:34-38 | the highest seat number of the table, or none exactly when the table has no seat |
| Seats.StartNumberIsFree | controllers/seat.controller.js:40 | no seat of the table is numbered at or above the start number |
| Seats.StoredRunRow | controllers/seat.controller.js:42-51 | a stored row of the new run has the seat number its key position gives it |
| Seats.BatchKeepsKeysUnique | models/seat.model.js:28 | a run of new seats keeps (table_id, seat_number) unique exactly when none of its numbers is taken on that table |
| Seats.SeatBatch | controllers/seat.controller.js:42-49 | the loop pushes `count` seats numbered from `first`, each AVAILABLE |
| Seats.AddSeatsToTable | controllers/seat.controller.js:14-65 | 400 for a count that is missing or not positive; 404 for an unknown table; otherwise exactly `seatCount` AVAILABLE seats numbered after the table's last seat (or from 1) are appended, and the unique index holds |
| Seats.CreateSeatsForTable | controllers/seat.controller.js:133-176 | the same checks; seats 1..seatCount are inserted; if one of those numbers is taken, the unique index refuses the whole insert (500) and nothing changes |
| Seats.BlockedIds | controllers/seat.controller.js:97-99 | the ids of exactly the found seats that are not AVAILABLE |
| Seats.Ids | controllers/seat.controller.js:105 | the reported ids are the found seats' ids, one for one and in order |
| Seats.AsLoaded | models/seat.model.js:6-24 | each seat is loaded with the same key and fields, and its status undefined |
| Seats.UndeclaredStatusBlocksAll | controllers/seat.controller.js:97-99 | with the status undefined on every seat, the blocked ids are exactly the ids of all the found seats |
| Seats.RemoveSeatsFromTableAsWritten | controllers/seat.controller.js:70-109 | the same two 400 answers; otherwise every listed seat is reported blocked, the list is non-empty, and no seat is ever removed |
| Seats.RemoveSeatsFromTable | controllers/seat.controller.js:70-128 | an empty or missing list is 400; a list that does not match as many of the table's seats as it has entries is 400; a non-AVAILABLE seat blocks the removal and its id is reported; otherwise exactly the listed seats of the table are deleted and nothing else changes |
| Seats.SeatsByTable | controllers/seat.controller.js:181-198 | the table's seats and no others, each once, in ascending seat number |
| Seats.UpdateSeatStatus | controllers/seat.controller.js:203-238 | a status outside the four codes is 400; an unknown seat is 404; otherwise only that seat's status changes |
| Provisioning.FloorRecords | controllers/hotelTable.controller.js:81-87 | the loop pushes floors 1..F of the new hotel |
| Provisioning.TableRecords | controllers/hotelTable.controller.js:95-106 | the nested loop pushes T tables per created floor, numbered (floor_number - 1) * T + i |
| Provisioning.SeatRecords | controllers/hotelTable.controller.js:114-122 | the nested loop pushes seats 1..C for every created table |
| Provisioning.TablesOfLength | controllers/hotelTable.controller.js:95-106 | the nested loop pushes F * T tables |
| Provisioning.TablesOnTheirFloor | controllers/hotelTable.controller.js:95-106 | every table lies on one of the created floors, with its number in (f - 1) * T + 1 .. f * T |
| Provisioning.TableNumbersInOrder | controllers/hotelTable.controller.js:95-106 | the stored tables are numbered 1, 2, ..., F * T in order |
| Provisioning.TableNumbersCoverLayout | controllers/hotelTable.controller.js:95-106 | the table numbers are pairwise distinct and are exactly 1..F * T |
| Provisioning.SeatsOfShape | controllers/hotelTable.controller.js:114-122 | C seats per table, numbered 1..C, none booked; every (table, n) with 1 <= n <= C is present |
| Provisioning.SeatKeysDistinct | controllers/hotelTable.controller.js:114-122 | no two pushed seats share a table and a seat number |
| Provisioning.FreshFloorsKeepKeysUnique | models/floor.model.js:24-29 | the floors of a new hotel keep (hotel_table_id, floor_number) unique |
| Provisioning.NewTablesOnNewFloors | controllers/hotelTable.controller.js:95-111 | the stored tables sit on the new floors, and no two share a table number |
| Provisioning.FreshTablesKeepKeysUnique | models/table.model.js:35-38 | the tables of a new hotel keep (hotel_table_id, floor_id, table_number) unique |
| Provisioning.NewSeatsOnNewTables | controllers/hotelTable.controller.js:114-125 | the stored seats belong to the new tables only |
| Provisioning.NewSeatKeysDistinct | controllers/hotelTable.controller.js:114-125 | no two stored seats share a table and a seat number |
| Provisioning.FreshSeatsKeepKeysUnique | models/seat.model.js:28 | the seats of a new hotel keep (table_id, seat_number) unique |
| Provisioning.AsWrittenHotelBreaksNotNull | controllers/hotelTable.controller.js:20-26 | the hotel record as written never carries tables_per_floor, so it never meets the NOT NULL columns of models/hotelTable.model.js:33-47 |
| Provisioning.HotelRowNotNull | models/hotelTable.model.js:13-47 | the record with the two counts stored meets the NOT NULL columns exactly when the body gives hotel_name and location_id |
| Provisioning.Refusal | controllers/hotelTable.controller.js:29-68 | no 400 message exactly when area_id is truthy, the three counts are positive and the area exists |
| Provisioning.CreateHotelWithLayout | controllers/hotelTable.controller.js:71-149 | a hotel record with an empty NOT NULL column is 500 with nothing stored; otherwise the outcome of the transaction |
| Provisioning.CreateHotelTable | controllers/hotelTable.controller.js:16-150 | with the two counts stored on the hotel: the checks run in order, each answering 400 with nothing stored (area_id missing; floor_per_hotel, tables_per_floor, chairs_per_table not positive; area unknown); a body without hotel_name or location_id is 500 with nothing stored; otherwise the outcome of the transaction |
| Provisioning.CreateHotelTableAsWritten | controllers/hotelTable.controller.js:16-150 | as the code stands: the same 400 checks, and every request that passes them is answered 500 "Failed to create hotel" with nothing stored |
| Provisioning.Provision | controllers/hotelTable.controller.js:70-149 | all or nothing: either 500 with every table as it was, or 201 with counts F, F*T and F*T*C, and each table grew by exactly its part of the layout; it fails only when stored rows already refer to keys not yet handed out |
| Hotels.DecimalRoundTrip | controllers/hotelTable.controller.js:163 | reading back the decimal digits of n gives n |
| Hotels.NumberOfIntString | controllers/hotelTable.controller.js:163 | `Number(String(n)) == n` for every integer |
| Hotels.FirstFilledIndex | controllers/hotelTable.controller.js:170 | `a \|\| b \|\| ...` stops at the first non-empty parameter, having passed over only empty or missing ones |
| Hotels.FirstFilled | controllers/hotelTable.controller.js:170 | the chosen term is empty exactly when no parameter is given non-empty |
| Hotels.HotelsWhere | controllers/hotelTable.controller.js:159-172 | location_id is filtered exactly when it is given non-empty and reads as a number, with that number; a search applies exactly when the trimmed term is not empty, and the term has no white space at its ends |
| Hotels.BlankSearchHidesHotelName | controllers/hotelTable.controller.js:170 | a `search` of white space only hides a given `hotel_name`: no text filter applies |
| Hotels.HotelById | controllers/hotelTable.controller.js:256-280 | 404 exactly when no hotel has that key; otherwise that hotel |
| Hotels.EmptyPatchIsIdentity | controllers/hotelTable.controller.js:297 | a body that sets no column leaves the hotel as it was |
| Hotels.PatchCompose | controllers/hotelTable.controller.js:297 | two updates in a row equal one update by the merged body, the later body winning where both set a column |
| Hotels.PatchKeepsMinimum | models/hotelTable.model.js:33-47 | a valid update keeps tables_per_floor and chairs_per_table at 1 or more |
| Hotels.PatchIdempotent | controllers/hotelTable.controller.js:297 | applying the same update twice equals applying it once |
| Hotels.UpdateHotelTable | controllers/hotelTable.controller.js:285-311 | 404 for an unknown hotel; a value below the model's minimum is 500; otherwise only that row changes, by the patch |
| Hotels.DeleteHotelTable | controllers/hotelTable.controller.js:316-342 | 404 for an unknown hotel; otherwise that row is gone and every other row stays |
| Tables.LastTableNumber | controllers/table.controller.js:31-35 | the highest table number of the hotel, or none exactly when it has no table |
| Tables.TableBatch | controllers/table.controller.js:39-46 | the loop pushes `count` tables of the hotel numbered from `first` |
| Tables.NewTableNumbersFresh | controllers/table.controller.js:37-46 | every new number is above every number the hotel has, and the new numbers are pairwise distinct |
| Tables.FloorlessTablesKeepKeysUnique | models/table.model.js:35-38 | tables stored without a floor never break the unique index, so the 409 branch is unreachable |
| Tables.CreateTablesForHotel | controllers/table.controller.js:10-71 | 400 for a count that is missing or not positive; 404 for an unknown hotel; otherwise exactly tableCount tables numbered from one past the hotel's highest number (or from 1) are appended |
| Tables.RunBreaksNotNull | controllers/table.controller.js:39-46 | no record of the run carries a floor_id, which models/table.model.js:18-21 declares NOT NULL |
| Tables.CreateTablesForHotelAsWritten | controllers/table.controller.js:10-71 | as the code stands: the same 400 and 404; every other request is answered 500 "Failed to create tables", the NOT NULL refusal not being a unique-index error |
| Tables.UnbookedBounds | controllers/table.controller.js:116-132 | a table's free seats are at most its seats, and it has a free seat exactly when their count is not 0 |
| Tables.AvailabilityBounds | controllers/table.controller.js:108-148 | free seats <= seats, tables with a free seat <= tables, and no table is available exactly when no seat is |
| Tables.FloorSummaryBounds | controllers/table.controller.js:141-148 | per floor, available_of_seats <= number_of_seats and available_of_tables <= number_of_tables; available_of_tables is 0 exactly when available_of_seats is |
| Tables.VisitSeats | controllers/table.controller.js:116-128 | the inner `map` counts every seat, and the unbooked ones, and sets the table's flag exactly when a seat is free |
| Tables.FloorStep | controllers/table.controller.js:113-132 | one more table adds its own share to each floor counter |
| Tables.SummarizeFloor | controllers/table.controller.js:108-149 | the counters of one floor equal the floor summary |
| Tables.GetTablesByHotel | controllers/table.controller.js:76-168 | 404 for an unknown hotel; otherwise one entry holding the summary of each of the hotel's floors; nothing changes |
| Tables.LayoutBounds | controllers/table.controller.js:141-159 | every reported floor belongs to the hotel and keeps the counting bounds |
| Tables.DeleteTable | controllers/table.controller.js:173-198 | 404 for an unknown table; otherwise that table is gone and every other stays |
| Reservations.SlotGuard | controllers/reservation.controller.js:17-33 | only a truthy table_id is checked; the insert goes ahead exactly when table_id is falsy, or when the date and time are given and no BOOKED reservation holds that table at that date and time; a held slot is 400 "Table already reserved for this time"; an undefined date, or else an undefined time, is 500 with the ORM's undefined WHERE parameter message |
| Reservations.CreateReservationAsWritten | controllers/reservation.controller.js:3-57 | a refusal changes nothing; otherwise exactly one reservation is appended, without a status |
| Reservations.CreateReservation | controllers/reservation.controller.js:3-57 | the same, with the inserted reservation marked BOOKED |
| Reservations.NonBookedNeverBlocks | controllers/reservation.controller.js:23 | a reservation whose status is not BOOKED, such as a cancelled one, never blocks a slot |
| Reservations.AsWrittenAdmitsRepeat | controllers/reservation.controller.js:17-44 | as written, an admitted request leaves the same request admissible |
| Reservations.DoubleBookingAsWritten | controllers/reservation.controller.js:17-44 | two identical requests for one table, date and time are both admitted, as two reservations |
| Reservations.BookedRefusesRepeat | controllers/reservation.controller.js:17-33 | with the status written, the same request is refused with 400 afterwards |
| Reservations.InsertedColumns | controllers/reservation.controller.js:35-44 | of the declared columns, the insert writes at most hotel_id and reservation_date, each exactly when the body gives it |
| Reservations.InsertMissesRequired | models/reservation.model.js:13-46 | whatever the request, the insert leaves floor_id, booking_date, start_time and seat_status empty, all NOT NULL without a default |
| Reservations.GuardNamesUndeclared | controllers/reservation.controller.js:18-25 | the guard filters on table_id, reservation_time and status, which the declared table lacks |
| Reservations.CreateReservationAgainstSchema | controllers/reservation.controller.js:3-57 | against the declared table every request is answered 500, with the error's text when table_id is falsy or the date and time are given |
| Reservations.ReservationsByHotel | controllers/reservation.controller.js:59-78 | the hotel's reservations and no others, each once, in ascending reservation date |
| Reservations.CancelFreesSlot | controllers/reservation.controller.js:93-94 | after a cancellation a slot is taken exactly when a BOOKED reservation other than the cancelled one holds it |
| Reservations.CancelIdempotent | controllers/reservation.controller.js:93-94 | cancelling twice equals cancelling once |
| Reservations.CancelReservation | controllers/reservation.controller.js:80-106 | 404 for an unknown reservation; otherwise its status becomes CANCELLED and nothing else changes |
| Locations.NamedIsUnique | models/location.model.js:15 | with unique names, a name names at most one location |
| Locations.FindByName | controllers/location.controller.js:9 | the location with that name, or none exactly when no location has it |
| Locations.FreshNameKeepsUnique | models/location.model.js:15 | a location under an unused name keeps names unique |
| Locations.CreateLocation | controllers/location.controller.js:4-18 | a missing or empty name is 400, a used name 409, with nothing written; otherwise one location is appended and names stay unique |
| Locations.LocationNameOrder | controllers/location.controller.js:22 | the name order is total and transitive |
| Locations.AllLocations | controllers/location.controller.js:20-28 | every location once, in ascending name |
| Locations.FindOrCreateLocation | controllers/location.controller.js:45-46 | the key of the location with that name, created without a description only when none exists |
| Locations.NamesMembers | controllers/location.controller.js:36-41 | a name is grouped exactly when it is not empty and some hotel carries it |
| Locations.NamesDistinct | controllers/location.controller.js:39 | no name gets two groups |
| Locations.IdsNamedMembers | controllers/location.controller.js:40 | a key is in a name's group exactly when that hotel carries that name |
| Locations.IdsNamedNone | controllers/location.controller.js:38-40 | a name no hotel carries has no keys |
| Locations.NamesInFirstAppearanceOrder | controllers/location.controller.js:36-44 | the groups come in the order their names first appear, as a `Map` iterates |
| Locations.GroupsPartition | controllers/location.controller.js:35-41 | the groups partition the named hotels: a hotel is in the group of its name and in no other |
| Locations.GroupIndex | controllers/location.controller.js:39 | `map.has(name)`: where the group of that name is, or none exactly when there is none |
| Locations.GroupingStep | controllers/location.controller.js:37-40 | one hotel more: skipped when unnamed, added to its group, or starting a new group |
| Locations.GroupByLocation | controllers/location.controller.js:35-41 | the first loop builds exactly the grouping of the hotels by trimmed location name |
| Locations.AddToGroup | controllers/location.controller.js:37-40 | the body of the first loop extends the grouping by one hotel |
| Locations.AssignGroup | controllers/location.controller.js:45-48 | for one name: its location is found or created, and exactly the group's hotels point at it |
| Locations.Unread | controllers/location.controller.js:33 | each hotel is loaded with the same key and fields, and its location undefined |
| Locations.UnreadLocationsGroupNothing | controllers/location.controller.js:37-38 | with every location undefined there is no location name and no group |
| Locations.BulkAssignLocationsAsWritten | controllers/location.controller.js:31-57 | without the column the answer is 500 "Failed to bulk assign locations"; with it, 200 with an empty list |
| Locations.BulkAssignLocations | controllers/location.controller.js:31-57 | every hotel with a location name is linked to the location of that name; hotels without one are untouched; a location is created only for a name that has none, without a description; the answer lists each name once with its location and hotel count |
| Areas.FindArea | controllers/area.controller.js:9 | the area with that name, or none exactly when no area has it |
| Areas.FreshAreaKeepsUnique | models/area.model.js:15 | an area under an unused name keeps area names unique |
| Areas.CreateArea | controllers/area.controller.js:4-26 | a missing or empty name is 400, a used name 409, with nothing written; otherwise the area is appended with the truthy location_id as given, else the key of the location named location_name (found or created), else the location_id as given |
| Areas.AreaNameOrder | controllers/area.controller.js:30 | the name order is total and transitive |
| Areas.AllAreas | controllers/area.controller.js:28-36 | every area once, in ascending name |
| Floors.FindFloor | models/floor.model.js:24-29 | the hotel's floor with that number, or none exactly when it has none |
| Floors.FreshFloorKeepsUnique | models/floor.model.js:24-29 | a floor under an unused (hotel, number) pair keeps the index unique |
| Floors.CreateFloor | controllers/floor.controller.js:7-44 | only an undefined floor_number is 400; an unknown hotel is 404; a null or already used floor number is 500, with nothing written; otherwise exactly the given hotel and number are appended |
| Floors.FloorsByHotel | controllers/floor.controller.js:49-69 | the hotel's floors and no others, each once, in ascending floor number |
| Floors.FloorsByHotelStrict | controllers/floor.controller.js:53-56 | with the unique index, those floors come in strictly ascending number |
| Floors.DeleteFloor | controllers/floor.controller.js:74-99 | 404 for an unknown floor; otherwise that floor is gone and every other stays |
| StatusMasters.FindStatus | controllers/seatStatusMaster.controller.js:14-16 | the entry with that status_id, or none exactly when there is none |
| StatusMasters.FreshStatusKeepsUnique | models/seatStatusMaster.model.js:13-17 | an entry under an unused status_id keeps status ids unique |
| StatusMasters.CreateStatus | controllers/seatStatusMaster.controller.js:3-41 | a falsy status_id (absent or 0) or name is 400; a used status_id is 409, with nothing written; otherwise exactly that status_id and name are appended, and status ids stay unique |
| StatusMasters.CreateSeatStatus | controllers/seatStatusMaster.controller.js:3-41 | the shared handler on the seat status table, without a colour |
| StatusMasters.CreateDiningStatus | controllers/diningStatusMaster.controller.js:3-41 | the shared handler on the dining status table (with the seat status message on 409); the entry gets the default colour "#000000" |
| StatusMasters.SeatStatusesById | controllers/seatStatusMaster.controller.js:43-59 | every entry once, in ascending status_id |
| StatusMasters.SeatStatusesStrict | controllers/seatStatusMaster.controller.js:45-47 | with unique status ids, strictly ascending |
| StatusMasters.StatusNameOrder | controllers/diningStatusMaster.controller.js:45 | the name order is total and transitive |
| StatusMasters.DiningStatusesByName | controllers/diningStatusMaster.controller.js:43-51 | every entry once, in ascending name |
| Roles.Includes | middlewares/role.middleware.js:5 | `includes` holds exactly when the role equals one of the listed strings |
| Roles.AuthorizeRoles | middlewares/role.middleware.js:1-12 | the request is passed on exactly when the caller's role is listed; otherwise 403 "Access denied" |
| Roles.EmptyRolesDenyAll | middlewares/role.middleware.js:5 | an empty list of roles denies every caller |
| Roles.RoleCaseMatters | middlewares/role.middleware.js:5 | comparison is exact: a role equal to no listed string, such as "admin" where only "Admin" is listed, is refused with 403, and listing it lets it in |
| Roles.MoreRolesKeepAccess | middlewares/role.middleware.js:5 | listing more roles never turns away a caller who was let in |

## Findings

| source | as written | input that shows it | evidently intended | confidence | as-written member | corrected member |
|---|---|---|---|---|---|---|
| controllers/reservation.controller.js:17-44 | under the controller's record shape (a reservation with table_id, reservation_time and status): the guard looks for a reservation of that table, date and time with status "BOOKED", but the insert writes no status, so no reservation this handler creates is ever found by it | under the controller's record shape, two identical requests with table_id 1, the same reservation_date and reservation_time, on an empty table: both get 201 (against the declared table both get 500, see the fourth row) | the inserted reservation holds its slot (status "BOOKED"), so a repeated request is refused with 400 | not executed | Reservations.DoubleBookingAsWritten | Reservations.BookedRefusesRepeat |
| controllers/hotelTable.controller.js:20-77 | tables_per_floor and chairs_per_table are taken out of the body, and the hotel is created from the rest, so its record leaves both empty, while models/hotelTable.model.js:33-47 declares them NOT NULL | area_id of an existing area, floor_per_hotel 1, tables_per_floor 1, chairs_per_table 1, hotel_name "A", location_id 1: the create fails validation, the transaction is rolled back and the answer is 500 "Failed to create hotel"; so is every request that passes the checks | the hotel is stored with its tables_per_floor and chairs_per_table, then its floors, tables and seats | not executed | Provisioning.CreateHotelTableAsWritten | Provisioning.CreateHotelTable |
| controllers/table.controller.js:39-48 | the records of the new tables carry no floor_id, which models/table.model.js:18-21 declares NOT NULL | tableCount 1 for an existing hotel: the database refuses the insert, which is not a unique-index error, so the answer is 500 "Failed to create tables"; so is every request that passes the checks | tableCount tables are stored, numbered on from the hotel's highest table number (floor_id left NULL, or supplied) | not executed | Tables.CreateTablesForHotelAsWritten | Tables.CreateTablesForHotel |
| controllers/reservation.controller.js:17-44 | against models/reservation.model.js:13-46 the guard filters on table_id, reservation_time and status, which the table does not declare, and the insert writes none of floor_id, booking_date, start_time and seat_status, which are NOT NULL without a default | any request, for example table_id 1 with a date and time given, or no table_id at all: the query or the insert is refused and the answer is 500 | the reservation table has the columns the controller reads and writes, and a request the guard admits is stored | not executed | Reservations.CreateReservationAgainstSchema | Reservations.CreateReservation |
| controllers/seat.controller.js:97-105 | the removal keeps only seats whose `status` is AVAILABLE (4), but models/seat.model.js:6-24 declares no `status`, so it reads undefined on every seat | tableId 1 with one AVAILABLE seat, id 7, and seatIds [7]: the answer is 400 "Only AVAILABLE seats can be removed" with blockedSeatIds [7]; no request ever removes a seat | the seat table has the status column, and AVAILABLE seats are removed | not executed | Seats.RemoveSeatsFromTableAsWritten | Seats.RemoveSeatsFromTable |
| controllers/location.controller.js:33-37 | the query selects `location`, which models/hotelTable.model.js:6-48 does not declare, and config/db.js:24 syncs with `alter: true`, which removes the column | any request: the query fails and the answer is 500 "Failed to bulk assign locations"; were the column there, `h.location` would read undefined, no hotel would be grouped and the answer would list nothing | each hotel's location text is read and the hotel is linked to the location of that name | not executed | Locations.BulkAssignLocationsAsWritten | Locations.BulkAssignLocations |

`Reservations.CreateReservationAsWritten` and
`Reservations.AsWrittenAdmitsRepeat` model the code as written, under the
controller's record shape. `Reservations.CreateReservation` writes the
status, and `Reservations.BookedRefusesRepeat` proves the refusal for it.

The second to fourth rows are about NOT NULL columns the handlers never write.
`Provisioning.AsWrittenHotelBreaksNotNull`, `Tables.RunBreaksNotNull` and
`Reservations.InsertMissesRequired` show that the records as written
leave those columns empty. The corrected members are the ones the rest of
the model uses: `Provisioning.CreateHotelTable` stores the two counts on
the hotel, `Tables.CreateTablesForHotel` stores its tables with a NULL
floor_id, and `Reservations.CreateReservation` works on the record shape
the controller reads and writes.

The last two rows are about attributes the model does not declare and
the handler reads. `Seats.UndeclaredStatusBlocksAll` shows that with the
status undefined every found seat is blocked, and
`Locations.UnreadLocationsGroupNothing` that with the location undefined
no hotel is grouped. `Seats.RemoveSeatsFromTable` and
`Locations.BulkAssignLocations` read the attributes the controllers expect.

## Left out

- Everything a handler does after an unexpected database error (the catch blocks answering 500 with the error text) is left out. Only the failures the model can name are modelled: unique index violations, the NOT NULL columns of the hotel record and of the floor number, the NOT NULL columns the as-written members of the Findings leave empty, and the `min: 1` validation of tables_per_floor and chairs_per_table on update (Hotels.UpdateHotelTable answers 500 for it).
- The `success` flag is not modelled. For the handlers that answer with data, `Reply.Ok` carries the status code and that data, and the `message` of the successful answer is left out.
- Floors.DeleteFloor, Hotels.DeleteHotelTable, Tables.DeleteTable and Reservations.CancelReservation answer success with a `message` and no `data`. The model puts that message where the data would be, as in `Ok(200, "Floor deleted successfully")`.
- Foreign keys and cascades (deleting a hotel, floor or table and the rows that refer to it) are not modelled. The deletes remove only their own row.
- Tables.CreateTablesForHotel stores its tables with a NULL floor_id, although models/table.model.js:18-21 declares the column NOT NULL; Tables.CreateTablesForHotelAsWritten is the handler with the column enforced (see Findings).
- Reservations.CreateReservation works on the record shape the controller reads and writes, not on the columns models/reservation.model.js declares; Reservations.CreateReservationAgainstSchema is the handler against the declared table (see Findings).
- Sequelize drops attributes that a model does not declare when it writes a record (`table.floor_number`, `reservation.table_id`/`status`, `hotel.floor_per_hotel`). The model keeps the record shapes as the controllers see them.
- Seats.RemoveSeatsFromTable reads a seat `status` that models/seat.model.js does not declare. As written the attribute reads undefined, so every removal that passes the two 400 checks is refused with all its ids blocked. The model reads the status the controller expects; Seats.RemoveSeatsFromTableAsWritten is the handler as written (see Findings).
- Locations.BulkAssignLocations reads a hotel `location` that models/hotelTable.model.js does not declare. As written the query fails and the answer is 500; Locations.BulkAssignLocationsAsWritten is the handler as written (see Findings).
- The reservation model maps `reservation_date` onto the ORM's own creation timestamp column. The timestamps are not modelled, so the date is kept as the request gave it.
- The order of the rows that `include` nests under a hotel (floors, tables, seats) is unspecified by the database. The model uses key order.
- Tables.GetTablesByHotel: the `include` at controllers/table.controller.js:80-96 needs the associations that models/index.js registers, and no file shown here loads that module. The model assumes the associations are registered.
- Store.Where: `findAll` without an `order` returns its rows in an order the database does not specify. The model returns them in key order, and the members below inherit that choice.
- Seats.RemoveSeatsFromTable: the order of the blocked seat ids it reports is fixed to key order, because the `findAll` at controllers/seat.controller.js:82-87 has no `order`. The database may list the same ids in another order.
- Locations.BulkAssignLocations: the hotels are taken in key order, because the `findAll` at controllers/location.controller.js:33 has no `order`. That order decides the order of the groups and of the results, and which new location key each new name receives. The model states nothing about the outcome under another order of the same hotels.
- The `ILIKE` substring search and the per-hotel floor, table and seat counts of getAllHotelTables are not modelled. They depend on the database's collation. Only the filter the handler builds is modelled.
- Hotels.JsNumber: `Number(...)` is modelled only for decimal integers with an optional sign, blank, or anything else as NaN. Hexadecimal, exponent and fractional forms are not modelled.
- Common.NameLe: `ORDER BY name` is taken as code-point order. The database's collation may order names differently.
- A failed insert does not consume a key in the model. A database sequence may skip the value.
- Route parameters are modelled as integers. A parameter that is not a number is not modelled.
- Body fields are modelled as integers or strings (`Option` for a field not sent). JSON values of another type, such as a string where a number is expected, are not modelled.
- The `req.user` that the role gate reads is set by the authentication middleware, which is not part of this model.
- Concurrency: handlers run one at a time. The transaction of createHotelTable is modelled only as all-or-nothing.
- Logging (`console.log`, `console.error`) is left out.
