# MovieSeat seat maps, showtimes and reservations in Dafny

This project models the booking core of the MovieSeat cinema backend. A movie
document owns a list of showtimes ("functions"). Each showtime owns a seat map of
144 seats, rows A to F with 24 seats per row, each flagged available or not. A
reservation ledger records who holds which seats of which showtime.

Every database call of the backend is one atomic step on an in-memory store:

- the movies collection is a `map` from movie id to movie document;
- the reservations collection is a `seq` of records in insertion order. The model
  assumes that a query without a sort returns records in that order, so "find one"
  is "the first match";
- a conditional update (`findOneAndUpdate` with `$elemMatch`/`$all` and
  `arrayFilters`) is a function that returns the new document or nothing;
- a load-change-save (`findById`, change in place, `save`) is a method of a store
  class that reassigns the stored document.

Modules, in dependency order:

- `Wrappers` (wrappers.dfy): the `Option` type.
- `Seats` (seats.dfy): the seat-map generator, the free-seat filter and the flag
  flip applied by the array filters.
- `Registry` (registry.dfy): showtimes and movies, generic in the schedule type;
  lookup by id, removal by id, and the all-or-nothing conditional seat flip.
- `Movies` (movies.dfy): the three near-identical drafts of the movie model, whose
  showtimes carry one timestamp; class `MovieModel`.
- `Functions` (functions.dfy): the older function model, whose showtimes carry a
  date and a time; class `FunctionModel`.
- `Reservations` (reservations.dfy): the ledger, its filter query and its writes;
  class `ReservationModel`.
- `Coordination` (consistency.dfy): the booking and cancelling flows as
  transitions of the whole database. It also states the invariant linking ledger
  and seat flags: every record's seats are taken in its showtime, no two records
  of a showtime share a seat, and every taken seat is claimed by a record.
- `Controller` (controller.dfy): the reservation HTTP handlers as methods that
  return an outcome (with its status code) instead of writing a response.

Generated ids (`randomUUID`, Mongo object ids), the creation time of a record and
whether a reservation save succeeds are parameters of the operations.

## Model

| member | source | states |
|---|---|---|
| Seats.GenerateSeats | src/utils.ts:13-24 | exactly 144 seats, all available, numbered row letter then 1..24 in row-major order (A1..A24, B1..F24), pairwise distinct numbers, and always the same sequence (`Layout()`); the same for utils.js:5-17 |
| Seats.LayoutDistinct | src/utils.ts:17-20 | no two seats of the generated map share a number |
| Seats.LabelInjective | src/utils.ts:19 | the label row letter + number determines the row and the number |
| Seats.Available | src/services/movie.ts:153 | the free-seat filter keeps exactly the seats that are available and in the map |
| Seats.AvailableConcat | src/services/movie.ts:153 | the free-seat filter keeps seat-map order (it distributes over concatenation) |
| Seats.AvailableAllFree | src/utils.ts:19 | in a map whose seats are all free, the filter returns the whole map |
| Seats.NewMapAllFree | src/services/movie.ts:87-92 | the seat map a new showtime receives lists all of its 144 seats as free |
| Seats.SetFlags | src/services/movie.ts:183-192 | the array-filter update sets the flag on exactly the seats whose number is listed, keeps every other seat and every seat number |
| Seats.Drop | src/services/movie.ts:183-192 | the seats whose number is not listed, by membership |
| Seats.AvailableAfterTaking | src/services/movie.ts:166-195 | after taking the listed seats the free list is the old free list without those numbers, in order |
| Seats.HeldSeatsAreFree | src/services/movie.ts:172-181 | in a map with distinct numbers, every seat whose number the `$all` filter matched carries the matched flag |
| Seats.SetFlagsUndo | src/services/reservation.ts:83-111 | taking the matched seats and freeing them again gives back the seat map |
| Registry.FirstIndex | src/services/movie.ts:148-150 | `find`: the index of the first element satisfying the test, or nothing when none does |
| Registry.FindFunction | src/models/movie.ts:179-180 | `functions.id(...)`: a showtime with the id, nothing exactly when no showtime has it |
| Registry.GetFunctions | src/services/movie.ts:71-75 | nothing exactly when the movie is absent, otherwise its showtimes; the same in models/movie.js:87-91 |
| Registry.AvailableSeats | src/services/movie.ts:138-155 | nothing exactly when the movie or the showtime is absent; otherwise the free seats of the first showtime with the id, in seat-map order; the same in src/models/movie.ts:169-184; the same in models/movie.js:157-166 and models/function.js:66-75 |
| Registry.WithoutFunction | models/movie.js:144-146 | the filter never keeps a showtime with the deleted id and never grows the list |
| Registry.DeleteKeepsOthers | src/models/movie.ts:163 | `pull` keeps exactly the showtimes with a different id: nothing is invented, nothing else is lost |
| Registry.DeleteAbsentIsNoOp | src/services/movie.ts:129-135 | deleting an id no showtime carries leaves the list unchanged |
| Registry.DeleteIdempotent | src/services/movie.ts:129-135 | deleting twice equals deleting once |
| Registry.DeleteKeepsOrder | models/movie.js:144-146 | removal distributes over concatenation, so the kept showtimes stay in order |
| Registry.DeleteRemovesOne | src/models/movie.ts:160-166 | with unique ids, deleting the id at position k gives the list without position k |
| Registry.DeleteKeepsIdsUnique | models/function.js:53-55 | removal keeps showtime ids unique |
| Registry.DeletePreservesWellFormed | models/function.js:49-59 | removal keeps a movie well formed (unique showtime ids, distinct seat numbers per map) |
| Registry.SetFunctionFlags | src/services/movie.ts:183-192 | the `func._id` array filter: every showtime with the id gets the flag update on the listed seats, every other showtime is unchanged, ids and schedules are kept |
| Registry.FlipSeats | src/services/movie.ts:166-182 | the conditional update succeeds exactly when some showtime with the id has every listed number with the required flag; it then keeps id and details and applies the flip |
| Registry.FlipIn | src/models/movie.ts:195-224 | the update against the collection: nothing for an unknown movie, otherwise the conditional flip of that movie |
| Registry.Reserve | src/services/movie.ts:157-196 | `reserveSeat` on one movie succeeds exactly when some showtime with the id has every listed seat free; afterwards every listed seat is taken, id and details are kept, and showtimes with another id are unchanged |
| Registry.Release | src/services/reservation.ts:83-111 | the release succeeds exactly when some showtime with the id has every listed seat taken; afterwards every listed seat is free, id and details are kept, and showtimes with another id are unchanged |
| Registry.NoPartialFlip | src/services/movie.ts:172-181 | one requested number with no free seat in the showtime makes the whole reservation fail |
| Registry.FlippedSeatsSet | src/services/movie.ts:183-194 | after a successful flip every listed seat of every showtime with the id carries the new flag |
| Registry.NoDoubleBooking | src/services/movie.ts:166-195 | once a seat is reserved, a second reservation naming it fails |
| Registry.DisjointReservationsBothSucceed | src/services/movie.ts:166-195 | reservations of disjoint seats of one showtime both succeed, one after the other |
| Registry.ReleaseUndoesReserve | src/services/reservation.ts:83-111 | on a well-formed movie, releasing the seats just reserved succeeds and gives back the movie as it was |
| Registry.FlipPreservesWellFormed | src/services/movie.ts:166-195 | a flip keeps the movie well formed |
| Registry.AvailableAfterReserve | src/models/movie.ts:176-183 | after a reservation the free list of the showtime is the old one without the taken numbers, in order |
| Registry.FlipHoldsAll | src/services/reservation.ts:83-99 | after a reservation the release filter of the same seats matches |
| Registry.FlipKeepsHolds | src/services/movie.ts:188-192 | a flip does not disturb the seats of other showtimes or unlisted seats |
| Registry.TakenAndFreeDisjoint | src/services/movie.ts:172-181 | in a well-formed movie no number is held both taken and free in one showtime |
| Movies.RescheduleOne | src/services/movie.ts:107-116 | one update entry moves the first showtime with that datetime when a new datetime is given; otherwise nothing changes; ids and seats never change |
| Movies.RescheduleAll | src/services/movie.ts:107-116 | the update entries applied in order; a list in which no entry carries a new datetime leaves the showtimes as they were |
| Movies.RescheduleKeepsIdsAndSeats | src/models/movie.ts:138-147 | a sequence of updates keeps the number, ids and seats of the showtimes |
| Movies.ReschedulePreservesWellFormed | models/movie.js:121-129 | rescheduling keeps a movie well formed |
| Movies.AddPreservesWellFormed | src/services/movie.ts:87-92 | appending generated showtimes with fresh distinct ids keeps a movie well formed |
| Movies.MovieModel.AddFunction | src/services/movie.ts:77-96 | nothing for an unknown movie; otherwise one new showtime per input datetime, in input order, each with a freshly generated seat map, after the unchanged existing ones; the same in src/models/movie.ts:108-127 and models/movie.js:98-111 |
| Movies.MovieModel.UpdateFunction | src/services/movie.ts:98-120 | nothing when the movie or the update list is missing; otherwise the updates applied in order with first-match semantics, and the movie saved; the same in src/models/movie.ts:129-151 and models/movie.js:118-133 |
| Movies.MovieModel.Update | src/services/movie.ts:47-69 | nothing for an unknown movie; otherwise the fields merged in, and the showtimes rescheduled only when the update list is non-empty; the same in src/models/movie.ts:78-100 and models/movie.js:64-80 |
| Movies.MovieModel.DeleteFunction | src/services/movie.ts:122-136 | nothing for an unknown movie; otherwise the showtimes with a different id, in order; the same in src/models/movie.ts:153-167 and models/movie.js:140-150 |
| Movies.MovieModel.ReserveSeat | src/services/movie.ts:157-196 | the result is the conditional flip to taken and the store holds it; a failed flip changes nothing, other movies are untouched; the same in src/models/movie.ts:186-225 and models/movie.js:173-204 |
| Movies.MovieModel.ReleaseSeats | src/services/reservation.ts:83-112 | the result is the conditional flip back to free in the named showtime, and the store holds it |
| Functions.Assign | models/function.js:39 | `Object.assign`: each field present in the input overwrites the showtime's, the others and the id are kept |
| Functions.AssignIdempotent | models/function.js:39 | applying the same input twice equals applying it once |
| Functions.AssignNothing | models/function.js:39 | an input with no field leaves the showtime unchanged |
| Functions.AssignFirst | models/function.js:35-39 | nothing exactly when no showtime has the id; otherwise the first one with the id updated and every other showtime unchanged |
| Functions.FunctionModel.AddFunction | models/function.js:10-24 | nothing for an unknown movie; otherwise exactly one showtime appended with the given date and time and a generated seat map |
| Functions.FunctionModel.UpdateFunction | models/function.js:31-42 | nothing when the movie or the showtime is missing; otherwise the input merged into the showtime found by id |
| Functions.FunctionModel.DeleteFunction | models/function.js:49-59 | nothing for an unknown movie; otherwise every showtime with the id removed, the others kept in order |
| Reservations.Matching | src/services/reservation.ts:22-28 | `find`: only selected records, never more than the ledger holds |
| Reservations.Selects | src/services/reservation.ts:22-25 | the query object: with no date and no (or an empty) user it selects every record; a selected record has the given date and the given non-empty user; a record with the given date and user is selected |
| Reservations.MatchingExact | src/services/reservation.ts:22-25 | a record is found exactly when it is stored and satisfies the date constraint (if a date is given) and the user constraint (if a non-empty user is given); the same in models/reservation.js:13-16 |
| Reservations.MatchingEverything | src/services/reservation.ts:22-25 | with neither a date nor a user every record matches, in ledger order |
| Reservations.Find | src/services/reservation.ts:13-30 | a list exactly when `multiple` is true (absent means false); otherwise the first selected record, nothing exactly when none is selected; the same in models/reservation.js:12-21 |
| Reservations.MatchingNone | src/services/reservation.ts:28 | with no selected record the list is empty |
| Reservations.MatchingFrom | src/services/reservation.ts:27-29 | the list starts at the first selected record |
| Reservations.FindOneIsFirstOfMany | src/services/reservation.ts:27-29 | `findOne` returns the head of what `find` returns for the same filter |
| Reservations.Locate | models/reservation.js:65-69 | lookup by id: the first record with the id, nothing exactly when no record has it |
| Reservations.LocateUnique | models/reservation.js:65-69 | with unique ids the lookup lands on the one record with the id |
| Reservations.RemoveById | models/reservation.js:65-69 | removing the located record keeps every other record and the uniqueness of ids, and no record with the id remains |
| Reservations.StoreOutcome | src/services/reservation.ts:40-46 | a save appends the record under its id when the write succeeds and the id is new, and otherwise changes nothing; ids stay unique |
| Reservations.Stored | src/services/reservation.ts:45 | a save either appends the record or leaves the ledger as it was, and it changes the ledger exactly when the write succeeds and no stored record has the id already |
| Reservations.Patched | src/services/reservation.ts:59 | each field present in the update overwrites the record's; the id is kept |
| Reservations.PatchIdempotent | src/services/reservation.ts:59 | sending the same update twice has the effect of sending it once |
| Reservations.CancelAsWritten | src/services/reservation.ts:70-113 | an unknown id changes nothing and gives nothing; otherwise the record is deleted whether or not the release succeeds, and a failed release touches no seat |
| Reservations.ReservationModel.GetReservations | src/services/reservation.ts:13-30 | answers the filter query and changes nothing |
| Reservations.ReservationModel.Create | src/services/reservation.ts:35-47 | returns the record built from the input, the generated id and the creation time, whether or not the save stored it |
| Reservations.ReservationModel.Insert | src/services/reservation.ts:45 | the save with its failure reported: stores and returns the record exactly when the write succeeds and the id is new |
| Reservations.ReservationModel.Update | src/services/reservation.ts:52-65 | nothing when no record has the id; otherwise the record with the input fields overwritten, stored in place; the same in models/reservation.js:54-58 |
| Reservations.ReservationModel.Delete | models/reservation.js:65-69 | the record with the id removed and returned, the rest kept in order; nothing when absent |
| Reservations.ReservationModel.CancelReservation | src/services/reservation.ts:70-113 | the delete followed by the release in the caller's showtime, as `CancelAsWritten` |
| Coordination.EmptyIsConsistent | src/utils.ts:19 | a database with no reservations and every seat free satisfies the ledger/seat invariant |
| Coordination.BookAsWritten | src/controllers/reservation.ts:49-69 | a failed reservation changes nothing; a successful one reports the record built from the input, whose seats are all taken in its showtime |
| Coordination.Book | src/controllers/reservation.ts:49-69 | booked exactly when the seats were reserved and the save succeeded, the record appended; otherwise the ledger is unchanged |
| Coordination.BookAgreesWhenSaved | src/controllers/reservation.ts:59-61 | when the save succeeds the corrected flow does what the written flow does |
| Coordination.BookRollbackRestores | src/controllers/reservation.ts:63-67 | when the save fails the corrected flow gives back the database it started from |
| Coordination.ClaimedGrows | src/services/reservation.ts:45 | appending a record keeps every claim |
| Coordination.ClaimedWithout | src/services/reservation.ts:77-78 | removing a record that does not claim a seat keeps that seat's claim |
| Coordination.TakeKeepsHeld | src/controllers/reservation.ts:49-61 | after taking free seats for a new record, the new record and every old one hold their seats |
| Coordination.TakeKeepsApart | src/services/movie.ts:172-181 | seats that were free share no number with the seats old records of the showtime hold |
| Coordination.TakeKeepsClaimed | src/controllers/reservation.ts:49-61 | every seat taken after the flip is claimed, the newly taken ones by the new record |
| Coordination.TakeAndRecord | src/controllers/reservation.ts:49-61 | taking free seats and recording them under a new id keeps the invariant |
| Coordination.BookPreservesConsistency | src/controllers/reservation.ts:39-70 | the corrected booking keeps the invariant whatever the reservation and the save do |
| Coordination.BookAsWrittenStrandsSeats | src/services/reservation.ts:45 | as written, a failed save after a successful reservation is still reported as booked, the ledger is unchanged and the taken seats are claimed by no record |
| Coordination.DirectReserveStrandsSeats | src/controllers/movie.ts:192-214 | the reserve route of the movie controller takes the seats and writes no record, so on a consistent database some taken seat is claimed by no reservation |
| Coordination.Cancel | src/services/reservation.ts:70-113 | the corrected cancel: nothing when the id is unknown or the record belongs to another showtime; otherwise the written cancel |
| Coordination.ReleaseKeepsHeld | src/services/reservation.ts:83-111 | releasing a record's seats always succeeds under the invariant, and the other records keep their seats |
| Coordination.RemoveKeepsApart | src/services/reservation.ts:77-78 | dropping a record keeps the other records pairwise without shared seats |
| Coordination.ReleaseKeepsClaimed | src/services/reservation.ts:77-111 | every seat still taken after the release is claimed by a remaining record |
| Coordination.ReleaseAndForget | src/services/reservation.ts:70-113 | releasing a record's own seats and deleting it keeps the invariant |
| Coordination.CancelPreservesConsistency | src/services/reservation.ts:70-113 | the corrected cancel keeps the invariant, and frees seats exactly when a record has the id and the named showtime |
| Coordination.CancelUndoesBook | src/services/reservation.ts:83-111 | booking and then cancelling the new record gives back the database the booking started from |
| Coordination.TwoShowtimesConsistent | src/services/reservation.ts:83-111 | the sample database of the cancel finding satisfies the invariant |
| Coordination.CancelAsWrittenFreesWrongSeat | src/services/reservation.ts:83-111 | as written, cancelling a record of the sample while naming the other showtime reports success and frees the other record's seat, so the invariant no longer holds |
| Controller.Validate | src/controllers/reservation.ts:40-47 | the body is accepted exactly when all four fields are present, and the input carries them unchanged |
| Controller.Status | src/controllers/reservation.ts:39-106 | 400 for bad requests and failed bookings, 404 for a failed cancel, 200 otherwise |
| Controller.BookingOutcome | src/controllers/reservation.ts:55-69 | a refused reservation is answered "Seats could not be reserved", an unrecorded one "Reservation could not be created", a booking with its record; the answer is 200 exactly when the booking was recorded |
| Controller.ReservationController.GetAll | src/controllers/reservation.ts:11-19 | a list of exactly the stored records, restricted to the date when one is given |
| Controller.ReservationController.GetByUserId | src/controllers/reservation.ts:21-37 | a bad request for an empty user id; otherwise a list of exactly the user's records, restricted to the date when one is given |
| Controller.ReservationController.Create | src/controllers/reservation.ts:39-70 | an invalid body changes nothing; otherwise the seats are reserved first, a failed reservation records nothing, and the record carries the movie, showtime and seats that were taken, with no rollback |
| Controller.ReservationController.CreateWithRollback | src/controllers/reservation.ts:39-70 | the corrected booking: the flow `Book`, and the invariant kept |
| Controller.ReservationController.Delete | src/controllers/reservation.ts:90-106 | a missing id or showtime id changes nothing; otherwise the written cancel, answered as not found whenever it gives nothing, even after the record was deleted |
| Controller.ReservationController.DeleteOwn | src/controllers/reservation.ts:90-106 | the corrected cancel `Cancel`, and the invariant kept |

## Left out

- Persistence: connections and the mongoose schemas are replaced by the in-memory store.
  Every database call is one atomic step. Interleavings of concurrent requests are not modelled.
- Save failures are modelled only for the reservation save (`writable`). Movie saves are taken to succeed.
- Error paths that end in a caught exception are not modelled. Examples: cast errors
  of `findByIdAndUpdate` that make `update` return null, and failed movie lookups that raise.
- Dates are integer timestamps. `new Date(...)` parsing, time zones and invalid dates are
  not modelled, and datetime equality is integer equality.
- Generated ids and creation times are parameters. The store methods do not require
  fresh ids. The well-formedness lemmas (`Movies.AddPreservesWellFormed`, `Coordination.TakeAndRecord`)
  take freshness as a hypothesis.
- A reservation's `createdAt` comes from a schema default and the timestamps option. The model
  takes the resulting value as a parameter and does not decide which of the two wins.
- HTTP: routing, JSON bodies and messages, `asyncHandler`. Controller answers are outcomes with a status code.
- Validation: the zod schema is reduced to "all four fields present with their types".
  Empty strings and empty seat lists pass it, as they do in the source.
- The movie and user controllers, authentication, user services and the genre filter of `getAll` are not part of this model.
- Movies.MovieModel.Update: the movie's own fields are a string map merged with the input.
  Changing `functions` or `_id` through those fields is not modelled.
- Functions.Assign: the input carries only date, time and seats. Overwriting `_id` or adding unknown keys is not modelled.
- Reservations.Patched: the update cannot change the record's `_id`.
- `create` in models/reservation.js cannot run, and controllers/reservation.js calls the
  services with wrong argument names. Neither is modelled. The booking flow is the one in src/controllers/reservation.ts.
- models/movie.js calls `generateSeats` without importing it. It is modelled as the utils.js generator.
- The `!newReservation` branch of the controller's `create` can never be taken as written,
  because `create` always returns the record. It is reachable only in `CreateWithRollback`.
- The ledger/seat invariant is proved for the booking and cancelling flows only.
  Deleting a showtime that still has reservations, or updating a record's seats, can break it.
  No route uses the ledger update, whose handler is commented out.
- Movies.MovieModel.ReserveSeat on the `POST /:id/reserve` route (src/routes/movies.ts:72,
  no authentication) takes seats without writing a reservation, which breaks the invariant
  (`Coordination.DirectReserveStrandsSeats`); the handler is modelled only through that lemma.
- Result order: MongoDB does not promise any order for a query without a sort. The model
  fixes it as insertion order, and "find one" and the cancel lookup rely on that assumption.

## Findings

| source | as written | input that shows it | evidently intended | confidence | as-written member | corrected member |
|---|---|---|---|---|---|---|
| src/services/reservation.ts:83-111 | the seats of a cancelled reservation are released in the showtime named by the caller's route parameter, not in the reservation's own showtime | movie m with showtimes f1 and f2, each with seat A1 taken by reservations r1 (f1) and r2 (f2); cancel r1 naming f2 | release in the reservation's own showtime, refusing a showtime that is not the record's | high; not executed | Coordination.CancelAsWrittenFreesWrongSeat | Coordination.CancelPreservesConsistency |
| src/services/reservation.ts:45 | a failed reservation save is logged and swallowed; the controller reports the booking and the seats stay taken with no record claiming them | reserve succeeds, then the save fails (storage error or id already taken) | release the taken seats and answer "Reservation could not be created" (src/controllers/reservation.ts:63-67) | medium; not executed | Coordination.BookAsWrittenStrandsSeats | Coordination.BookPreservesConsistency |
| src/controllers/movie.ts:192-214 | the unauthenticated reserve route calls `reserveSeat` and writes no reservation, so the taken seats belong to no record and no cancel can free them | a consistent database with a free seat A1 in showtime f of movie m; `POST /m/reserve` with functionId f and seats [A1] | seats are taken only by the booking flow, which records them (src/controllers/reservation.ts:49-69) | medium; not executed | Coordination.DirectReserveStrandsSeats | Coordination.BookPreservesConsistency |
