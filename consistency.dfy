/** The two reservation flows of the controller seen as transitions of the
    whole database (movies and ledger), and the invariant that ties the
    ledger to the seat flags: a seat is taken exactly when a reservation
    claims it. */
module Coordination {

  import opened Wrappers
  import opened Seats
  import opened Registry
  import opened Movies
  import opened Reservations

  /** Every stored movie sits under its own id and is well formed. */
  predicate MoviesSound(movies: map<MovieId, MovieDoc>)
  {
    forall id :: id in movies ==> movies[id].id == id && WellFormed(movies[id])
  }

  /** The record's seats are all taken in its showtime. */
  predicate Held(movies: map<MovieId, MovieDoc>, r: Reservation)
  {
    r.movie in movies && Matches(movies[r.movie], r.functionId, r.seats, false)
  }

  /** Two records of one showtime share no seat. */
  predicate Apart(a: Reservation, b: Reservation)
  {
    a.movie == b.movie && a.functionId == b.functionId ==> forall n :: n in a.seats ==> n !in b.seats
  }

  /** Some record of the showtime lists seat `n`. */
  predicate Claimed(ledger: seq<Reservation>, movieId: MovieId, fid: FunctionId, n: SeatNumber)
  {
    exists i :: 0 <= i < |ledger| && ledger[i].movie == movieId && ledger[i].functionId == fid && n in ledger[i].seats
  }

  predicate AllHeld(db: Db)
  {
    forall i :: 0 <= i < |db.ledger| ==> Held(db.movies, db.ledger[i])
  }

  predicate AllApart(ledger: seq<Reservation>)
  {
    forall i, j :: 0 <= i < |ledger| && 0 <= j < |ledger| && i != j ==> Apart(ledger[i], ledger[j])
  }

  /** Every taken seat is claimed by a record of its showtime. */
  predicate AllClaimed(db: Db)
  {
    forall id, k, s ::
      id in db.movies && 0 <= k < |db.movies[id].functions| && 0 <= s < |db.movies[id].functions[k].seats| &&
      !db.movies[id].functions[k].seats[s].isAvailable ==>
        Claimed(db.ledger, id, db.movies[id].functions[k].id, db.movies[id].functions[k].seats[s].seatNumber)
  }

  predicate Consistent(db: Db)
  {
    MoviesSound(db.movies) && UniqueIds(db.ledger) && AllHeld(db) && AllApart(db.ledger) && AllClaimed(db)
  }

  /** A database with no reservations and every seat free is consistent. */
  lemma EmptyIsConsistent(movies: map<MovieId, MovieDoc>)
    requires MoviesSound(movies)
    requires forall id, k, s :: id in movies && 0 <= k < |movies[id].functions| && 0 <= s < |movies[id].functions[k].seats| ==>
      movies[id].functions[k].seats[s].isAvailable
    ensures Consistent(Db(movies, []))
  {
  }

  /** What the booking flow reports. */
  datatype Booking = Refused | Booked(record: Reservation) | Unrecorded

  /** The controller's `create` as written: reserve the seats; when that
      succeeds, build the record and save it, and report it as booked
      whatever the save did. */
  function BookAsWritten(db: Db, input: ReservationInput, id: ReservationId, createdAt: Timestamp, writable: bool): (r: (Booking, Db))
    ensures r.0.Refused? <==> FlipIn(db.movies, input.movie, input.functionId, input.seats, true).None?
    ensures r.0.Refused? ==> r.1 == db
    ensures r.0.Booked? ==> r.0.record == NewRecord(input, id, createdAt) && Held(r.1.movies, r.0.record)
    ensures !r.0.Unrecorded?
  {
    var reserved := FlipIn(db.movies, input.movie, input.functionId, input.seats, true);
    if reserved.None? then (Refused, db)
    else
      FlipHoldsAll(db.movies[input.movie], input.functionId, input.seats, true);
      var rec := NewRecord(input, id, createdAt);
      (Booked(rec), Db(Saved(db.movies, input.movie, reserved), Stored(db.ledger, rec, writable)))
  }

  /** The booking flow with the failed save compensated: when the record
      cannot be stored, the seats just taken are released again. */
  function Book(db: Db, input: ReservationInput, id: ReservationId, createdAt: Timestamp, writable: bool): (r: (Booking, Db))
    ensures r.0.Refused? <==> FlipIn(db.movies, input.movie, input.functionId, input.seats, true).None?
    ensures r.0.Booked? <==> !r.0.Refused? && writable && Locate(db.ledger, id).None?
    ensures r.0.Booked? ==> r.0.record == NewRecord(input, id, createdAt) && r.1.ledger == db.ledger + [r.0.record]
    ensures !r.0.Booked? ==> r.1.ledger == db.ledger
  {
    var reserved := FlipIn(db.movies, input.movie, input.functionId, input.seats, true);
    if reserved.None? then (Refused, db)
    else
      var taken := Saved(db.movies, input.movie, reserved);
      var rec := NewRecord(input, id, createdAt);
      if writable && Locate(db.ledger, id).None? then (Booked(rec), Db(taken, db.ledger + [rec]))
      else
        var back := FlipIn(taken, input.movie, input.functionId, input.seats, false);
        (Unrecorded, Db(Saved(taken, input.movie, back), db.ledger))
  }

  /** When the save succeeds the two flows agree. */
  lemma BookAgreesWhenSaved(db: Db, input: ReservationInput, id: ReservationId, createdAt: Timestamp)
    requires forall i :: 0 <= i < |db.ledger| ==> db.ledger[i].id != id
    ensures Book(db, input, id, createdAt, true) == BookAsWritten(db, input, id, createdAt, true)
  {
  }

  /** The compensation restores the database exactly. */
  lemma BookRollbackRestores(db: Db, input: ReservationInput, id: ReservationId, createdAt: Timestamp, writable: bool)
    requires MoviesSound(db.movies)
    requires Book(db, input, id, createdAt, writable).0.Unrecorded?
    ensures Book(db, input, id, createdAt, writable).1 == db
  {
    var m := db.movies[input.movie];
    ReleaseUndoesReserve(m, input.functionId, input.seats);
    var m' := Reserve(m, input.functionId, input.seats).value;
    assert db.movies[input.movie := m'][input.movie := m] == db.movies;
  }

  /** A claim survives appending a record. */
  lemma ClaimedGrows(ledger: seq<Reservation>, x: Reservation, movieId: MovieId, fid: FunctionId, n: SeatNumber)
    requires Claimed(ledger, movieId, fid, n)
    ensures Claimed(ledger + [x], movieId, fid, n)
  {
    var i :| 0 <= i < |ledger| && ledger[i].movie == movieId && ledger[i].functionId == fid && n in ledger[i].seats;
    assert (ledger + [x])[i] == ledger[i];
  }

  /** A claim survives removing a record that does not make it. */
  lemma ClaimedWithout(ledger: seq<Reservation>, k: nat, movieId: MovieId, fid: FunctionId, n: SeatNumber)
    requires k < |ledger|
    requires Claimed(ledger, movieId, fid, n)
    requires !(ledger[k].movie == movieId && ledger[k].functionId == fid && n in ledger[k].seats)
    ensures Claimed(RemoveAt(ledger, k), movieId, fid, n)
  {
    var i :| 0 <= i < |ledger| && ledger[i].movie == movieId && ledger[i].functionId == fid && n in ledger[i].seats;
    var rest := RemoveAt(ledger, k);
    if i < k {
      assert rest[i] == ledger[i];
    } else {
      assert rest[i - 1] == ledger[i];
    }
  }

  /** The movies after taking the seats of `rec` in its showtime. */
  function TakenFor(db: Db, rec: Reservation): map<MovieId, MovieDoc>
  {
    Saved(db.movies, rec.movie, FlipIn(db.movies, rec.movie, rec.functionId, rec.seats, true))
  }

  /** After taking free seats for a new record, the new record and the old
      ones all hold their seats. */
  lemma TakeKeepsHeld(db: Db, rec: Reservation)
    requires Consistent(db)
    requires FlipIn(db.movies, rec.movie, rec.functionId, rec.seats, true).Some?
    ensures AllHeld(Db(TakenFor(db, rec), db.ledger + [rec]))
  {
    var mid, fid, numbers := rec.movie, rec.functionId, rec.seats;
    var m := db.movies[mid];
    var movies' := TakenFor(db, rec);
    var ledger' := db.ledger + [rec];
    FlipHoldsAll(m, fid, numbers, true);
    forall i | 0 <= i < |ledger'| ensures Held(movies', ledger'[i]) {
      if i < |db.ledger| {
        var r := db.ledger[i];
        assert ledger'[i] == r;
        assert Held(db.movies, r);
        if r.movie == mid {
          FlipKeepsHolds(m, fid, numbers, true, r.functionId, r.seats, false);
        }
      }
    }
  }

  /** Seats that were free share nothing with the seats the old records hold. */
  lemma TakeKeepsApart(db: Db, rec: Reservation)
    requires Consistent(db)
    requires FlipIn(db.movies, rec.movie, rec.functionId, rec.seats, true).Some?
    ensures AllApart(db.ledger + [rec])
  {
    var ledger' := db.ledger + [rec];
    forall i, j | 0 <= i < |ledger'| && 0 <= j < |ledger'| && i != j ensures Apart(ledger'[i], ledger'[j]) {
      if i < |db.ledger| && j < |db.ledger| {
        assert ledger'[i] == db.ledger[i] && ledger'[j] == db.ledger[j];
      } else {
        var prior := if i < |db.ledger| then db.ledger[i] else db.ledger[j];
        assert ledger'[i] == prior || ledger'[j] == prior;
        if prior.movie == rec.movie && prior.functionId == rec.functionId {
          assert Held(db.movies, prior);
          TakenAndFreeDisjoint(db.movies[rec.movie], rec.functionId, prior.seats, rec.seats);
        }
      }
    }
  }

  /** Every seat taken after the flip is claimed, the new ones by the new record. */
  lemma TakeKeepsClaimed(db: Db, rec: Reservation)
    requires Consistent(db)
    requires FlipIn(db.movies, rec.movie, rec.functionId, rec.seats, true).Some?
    ensures AllClaimed(Db(TakenFor(db, rec), db.ledger + [rec]))
  {
    var movies' := TakenFor(db, rec);
    var ledger' := db.ledger + [rec];
    forall id, k, s | id in movies' && 0 <= k < |movies'[id].functions| && 0 <= s < |movies'[id].functions[k].seats| &&
        !movies'[id].functions[k].seats[s].isAvailable
      ensures Claimed(ledger', id, movies'[id].functions[k].id, movies'[id].functions[k].seats[s].seatNumber)
    {
      var f' := movies'[id].functions[k];
      var n := f'.seats[s].seatNumber;
      if id == rec.movie && f'.id == rec.functionId && n in rec.seats {
        assert ledger'[|db.ledger|] == rec;
      } else {
        var f := db.movies[id].functions[k];
        assert f.id == f'.id && f.seats[s] == f'.seats[s];
        ClaimedGrows(db.ledger, rec, id, f'.id, n);
      }
    }
  }

  /** Taking a record's seats and appending the record keeps the database
      consistent, provided the seats were free and the id is new. */
  lemma TakeAndRecord(db: Db, rec: Reservation)
    requires Consistent(db)
    requires FlipIn(db.movies, rec.movie, rec.functionId, rec.seats, true).Some?
    requires forall i :: 0 <= i < |db.ledger| ==> db.ledger[i].id != rec.id
    ensures Consistent(Db(TakenFor(db, rec), db.ledger + [rec]))
  {
    FlipPreservesWellFormed(db.movies[rec.movie], rec.functionId, rec.seats, true);
    assert MoviesSound(TakenFor(db, rec));
    StoreOutcome(db.ledger, rec, true);
    TakeKeepsHeld(db, rec);
    TakeKeepsApart(db, rec);
    TakeKeepsClaimed(db, rec);
  }

  /** The corrected booking flow keeps the database consistent whatever
      the reservation and the save do. */
  lemma BookPreservesConsistency(db: Db, input: ReservationInput, id: ReservationId, createdAt: Timestamp, writable: bool)
    requires Consistent(db)
    ensures Consistent(Book(db, input, id, createdAt, writable).1)
  {
    var r := Book(db, input, id, createdAt, writable);
    if r.0.Booked? {
      TakeAndRecord(db, r.0.record);
    } else if r.0.Unrecorded? {
      BookRollbackRestores(db, input, id, createdAt, writable);
    }
  }

  /** `reserveSeat` run on its own, as the unauthenticated reserve route of
      the movie controller does: the seats are taken and no record is
      written, so on a consistent state some taken seat is claimed by no
      reservation. */
  lemma DirectReserveStrandsSeats(db: Db, movieId: MovieId, fid: FunctionId, numbers: seq<SeatNumber>)
    requires Consistent(db)
    requires FlipIn(db.movies, movieId, fid, numbers, true).Some?
    ensures !AllClaimed(Db(Saved(db.movies, movieId, FlipIn(db.movies, movieId, fid, numbers, true)), db.ledger))
  {
    var m := db.movies[movieId];
    var after := Db(Saved(db.movies, movieId, FlipIn(db.movies, movieId, fid, numbers, true)), db.ledger);
    var k :| 0 <= k < |m.functions| && m.functions[k].id == fid && HoldsAll(m.functions[k].seats, numbers, true);
    var n := numbers[0];
    assert HasSeat(m.functions[k].seats, n, true);
    var s :| 0 <= s < |m.functions[k].seats| && m.functions[k].seats[s].seatNumber == n && m.functions[k].seats[s].isAvailable;
    var f' := after.movies[movieId].functions[k];
    assert f'.id == fid && f'.seats[s].seatNumber == n && !f'.seats[s].isAvailable;
    forall j | 0 <= j < |db.ledger| && db.ledger[j].movie == movieId && db.ledger[j].functionId == fid
      ensures n !in db.ledger[j].seats
    {
      assert Held(db.movies, db.ledger[j]);
      TakenAndFreeDisjoint(m, fid, db.ledger[j].seats, numbers);
    }
    assert !Claimed(after.ledger, movieId, f'.id, f'.seats[s].seatNumber);
  }

  /** The booking flow as written: when the save fails after the seats were
      taken, it still reports the booking, and the taken seats belong to no
      record, so the invariant is broken. */
  lemma BookAsWrittenStrandsSeats(db: Db, input: ReservationInput, id: ReservationId, createdAt: Timestamp)
    requires Consistent(db)
    requires FlipIn(db.movies, input.movie, input.functionId, input.seats, true).Some?
    ensures BookAsWritten(db, input, id, createdAt, false).0.Booked?
    ensures BookAsWritten(db, input, id, createdAt, false).1.ledger == db.ledger
    ensures !AllClaimed(BookAsWritten(db, input, id, createdAt, false).1)
  {
    DirectReserveStrandsSeats(db, input.movie, input.functionId, input.seats);
  }

  /** The cancel flow made safe: the caller's showtime id must be the
      record's own, otherwise nothing is deleted; the release then runs in
      the record's showtime. */
  function Cancel(db: Db, reservationId: ReservationId, functionId: FunctionId): (r: (Option<MovieDoc>, Db))
    ensures Locate(db.ledger, reservationId).None? ==> r == (None, db)
    ensures Locate(db.ledger, reservationId).Some? && db.ledger[Locate(db.ledger, reservationId).value].functionId != functionId ==>
      r == (None, db)
    ensures Locate(db.ledger, reservationId).Some? && db.ledger[Locate(db.ledger, reservationId).value].functionId == functionId ==>
      r == CancelAsWritten(db, reservationId, functionId)
  {
    match Locate(db.ledger, reservationId)
    case None => (None, db)
    case Some(k) =>
      if db.ledger[k].functionId != functionId then (None, db)
      else CancelAsWritten(db, reservationId, functionId)
  }

  /** The movies after releasing the seats of record `k` in its own showtime. */
  function ReleasedFor(db: Db, k: nat): map<MovieId, MovieDoc>
    requires k < |db.ledger|
  {
    var rec := db.ledger[k];
    Saved(db.movies, rec.movie, FlipIn(db.movies, rec.movie, rec.functionId, rec.seats, false))
  }

  /** The records left after dropping record `k` still hold their seats
      once record `k`'s seats are released. */
  lemma ReleaseKeepsHeld(db: Db, k: nat)
    requires Consistent(db)
    requires k < |db.ledger|
    ensures FlipIn(db.movies, db.ledger[k].movie, db.ledger[k].functionId, db.ledger[k].seats, false).Some?
    ensures AllHeld(Db(ReleasedFor(db, k), RemoveAt(db.ledger, k)))
  {
    var rec := db.ledger[k];
    var mid, fid, numbers := rec.movie, rec.functionId, rec.seats;
    assert Held(db.movies, rec);
    var m := db.movies[mid];
    var movies' := ReleasedFor(db, k);
    var rest := RemoveAt(db.ledger, k);
    forall i | 0 <= i < |rest| ensures Held(movies', rest[i]) {
      var j := if i < k then i else i + 1;
      assert rest[i] == db.ledger[j];
      var r := db.ledger[j];
      assert Held(db.movies, r);
      if r.movie == mid {
        assert Apart(r, rec);
        FlipKeepsHolds(m, fid, numbers, false, r.functionId, r.seats, false);
      }
    }
  }

  /** Dropping a record keeps the others pairwise apart. */
  lemma RemoveKeepsApart(ledger: seq<Reservation>, k: nat)
    requires AllApart(ledger)
    requires k < |ledger|
    ensures AllApart(RemoveAt(ledger, k))
  {
    var rest := RemoveAt(ledger, k);
    forall i, i' | 0 <= i < |rest| && 0 <= i' < |rest| && i != i' ensures Apart(rest[i], rest[i']) {
      var j := if i < k then i else i + 1;
      var j' := if i' < k then i' else i' + 1;
      assert rest[i] == ledger[j] && rest[i'] == ledger[j'];
    }
  }

  /** Every seat still taken after the release is claimed by a remaining record. */
  lemma ReleaseKeepsClaimed(db: Db, k: nat)
    requires Consistent(db)
    requires k < |db.ledger|
    requires FlipIn(db.movies, db.ledger[k].movie, db.ledger[k].functionId, db.ledger[k].seats, false).Some?
    ensures AllClaimed(Db(ReleasedFor(db, k), RemoveAt(db.ledger, k)))
  {
    var movies' := ReleasedFor(db, k);
    forall id, fk, s | id in movies' && 0 <= fk < |movies'[id].functions| && 0 <= s < |movies'[id].functions[fk].seats| &&
        !movies'[id].functions[fk].seats[s].isAvailable
      ensures Claimed(RemoveAt(db.ledger, k), id, movies'[id].functions[fk].id, movies'[id].functions[fk].seats[s].seatNumber)
    {
      var f' := movies'[id].functions[fk];
      var f := db.movies[id].functions[fk];
      assert f.id == f'.id && f.seats[s] == f'.seats[s];
      ClaimedWithout(db.ledger, k, id, f'.id, f'.seats[s].seatNumber);
    }
  }

  /** Releasing a record's seats in its own showtime and dropping the record
      keeps the database consistent, and the release always succeeds. */
  lemma ReleaseAndForget(db: Db, k: nat)
    requires Consistent(db)
    requires k < |db.ledger|
    ensures FlipIn(db.movies, db.ledger[k].movie, db.ledger[k].functionId, db.ledger[k].seats, false).Some?
    ensures Consistent(Db(ReleasedFor(db, k), RemoveAt(db.ledger, k)))
  {
    var rec := db.ledger[k];
    ReleaseKeepsHeld(db, k);
    FlipPreservesWellFormed(db.movies[rec.movie], rec.functionId, rec.seats, false);
    assert MoviesSound(ReleasedFor(db, k));
    LocateUnique(db.ledger, rec.id, k);
    RemoveById(db.ledger, rec.id, k);
    RemoveKeepsApart(db.ledger, k);
    ReleaseKeepsClaimed(db, k);
  }

  /** The corrected cancel keeps the database consistent, and it frees the
      seats exactly when a record has the id and the given showtime. */
  lemma CancelPreservesConsistency(db: Db, reservationId: ReservationId, functionId: FunctionId)
    requires Consistent(db)
    ensures Consistent(Cancel(db, reservationId, functionId).1)
    ensures Cancel(db, reservationId, functionId).0.Some? <==>
      exists i :: 0 <= i < |db.ledger| && db.ledger[i].id == reservationId && db.ledger[i].functionId == functionId
  {
    var found := Locate(db.ledger, reservationId);
    if found.Some? {
      var k := found.value;
      if db.ledger[k].functionId == functionId {
        ReleaseAndForget(db, k);
      } else {
        forall i | 0 <= i < |db.ledger| && db.ledger[i].id == reservationId ensures db.ledger[i].functionId != functionId {
          LocateUnique(db.ledger, reservationId, i);
        }
      }
    }
  }

  /** Booking and then cancelling the new record gives back the database
      the booking started from. */
  lemma CancelUndoesBook(db: Db, input: ReservationInput, id: ReservationId, createdAt: Timestamp)
    requires Consistent(db)
    requires Book(db, input, id, createdAt, true).0.Booked?
    ensures Cancel(Book(db, input, id, createdAt, true).1, id, input.functionId).0.Some?
    ensures Cancel(Book(db, input, id, createdAt, true).1, id, input.functionId).1 == db
  {
    var booked := Book(db, input, id, createdAt, true);
    var rec := booked.0.record;
    var after := booked.1;
    var m := db.movies[input.movie];
    ReleaseUndoesReserve(m, input.functionId, input.seats);
    var m' := Reserve(m, input.functionId, input.seats).value;
    assert after.movies == db.movies[input.movie := m'];
    assert after.ledger[|db.ledger|] == rec;
    StoreOutcome(db.ledger, rec, true);
    assert Locate(after.ledger, id) == Some(|db.ledger|);
    assert RemoveAt(after.ledger, |db.ledger|) == db.ledger;
    assert db.movies[input.movie := m'][input.movie := m] == db.movies;
  }

  /** The sample behind the finding on `cancelReservation`: one movie whose
      two showtimes each have seat A1 taken, by two reservations. */
  function TwoShowtimes(): Db
  {
    var taken := [Seat("A1", false)];
    var movie := Movie("m", map[], [Function("f1", 0, taken), Function("f2", 1, taken)]);
    Db(map["m" := movie], [Reservation("r1", "u", "m", "f1", ["A1"], 0), Reservation("r2", "u", "m", "f2", ["A1"], 0)])
  }

  /** Both reservations of the sample hold seat A1 of their own showtime. */
  lemma TwoShowtimesHeld()
    ensures AllHeld(TwoShowtimes())
  {
    var db := TwoShowtimes();
    var m := db.movies["m"];
    assert m.functions[0].seats[0] == Seat("A1", false) && m.functions[1].seats[0] == Seat("A1", false);
    assert HasSeat(m.functions[0].seats, "A1", false) && HasSeat(m.functions[1].seats, "A1", false);
    assert Matches(m, "f1", ["A1"], false) by {
      assert m.functions[0].id == "f1" && HoldsAll(m.functions[0].seats, ["A1"], false);
    }
    assert Matches(m, "f2", ["A1"], false) by {
      assert m.functions[1].id == "f2" && HoldsAll(m.functions[1].seats, ["A1"], false);
    }
  }

  /** Each taken seat of the sample is claimed by the reservation of its showtime. */
  lemma TwoShowtimesClaimed()
    ensures AllClaimed(TwoShowtimes())
  {
    var db := TwoShowtimes();
    assert Claimed(db.ledger, "m", "f1", "A1") by {
      assert db.ledger[0].movie == "m" && db.ledger[0].functionId == "f1" && "A1" in db.ledger[0].seats;
    }
    assert Claimed(db.ledger, "m", "f2", "A1") by {
      assert db.ledger[1].movie == "m" && db.ledger[1].functionId == "f2" && "A1" in db.ledger[1].seats;
    }
  }

  /** The two reservations of the sample are of different showtimes. */
  lemma TwoShowtimesApart()
    ensures UniqueIds(TwoShowtimes().ledger) && AllApart(TwoShowtimes().ledger)
  {
  }

  /** The sample movie is well formed. */
  lemma TwoShowtimesSound()
    ensures MoviesSound(TwoShowtimes().movies)
  {
    var m := TwoShowtimes().movies["m"];
    assert UniqueFunctionIds(m.functions);
    assert DistinctNumbers(m.functions[0].seats) && DistinctNumbers(m.functions[1].seats);
  }

  /** The sample database satisfies the invariant. */
  lemma TwoShowtimesConsistent()
    ensures Consistent(TwoShowtimes())
  {
    TwoShowtimesHeld();
    TwoShowtimesClaimed();
    TwoShowtimesApart();
    TwoShowtimesSound();
  }

  /** Cancelling reservation r1 while naming the other showtime, as the
      route lets a caller do, frees r2's seat and leaves r1's seat taken:
      the database, consistent before (`TwoShowtimesConsistent`), is not
      after, yet the release reports success. */
  lemma CancelAsWrittenFreesWrongSeat()
    ensures CancelAsWritten(TwoShowtimes(), "r1", "f2").0.Some?
    ensures !Consistent(CancelAsWritten(TwoShowtimes(), "r1", "f2").1)
  {
    TwoShowtimesHeld();
    var db := TwoShowtimes();
    var m := db.movies["m"];
    assert Held(db.movies, db.ledger[1]);
    var m' := Release(m, "f2", ["A1"]).value;
    assert Locate(db.ledger, "r1") == Some(0);
    var r := CancelAsWritten(db, "r1", "f2");
    assert r.0 == Some(m');
    assert r.1 == Db(db.movies["m" := m'], [db.ledger[1]]);
    var freed := m'.functions[1];
    assert |freed.seats| == 1;
    assert freed.seats[0] == Seat("A1", true) by {
      assert m.functions[1].seats[0].seatNumber in ["A1"];
    }
    assert !HasSeat(freed.seats, "A1", false);
    assert !Held(r.1.movies, r.1.ledger[0]);
  }
}
