/** The reservation controller: each handler validates its input, calls the
    ledger and the movie store in sequence, and answers with a status. */
module Controller {

  import opened Wrappers
  import opened Seats
  import opened Registry
  import opened Movies
  import opened Reservations
  import opened Coordination

  /** A booking request body; a field that is missing or of the wrong type is `None`. */
  datatype Request = Request(user: Option<UserId>, movie: Option<MovieId>, functionId: Option<FunctionId>, seats: Option<seq<SeatNumber>>)

  /** The request schema: all four fields present, with their types. */
  function Validate(req: Request): (r: Option<ReservationInput>)
    ensures r.Some? <==> req.user.Some? && req.movie.Some? && req.functionId.Some? && req.seats.Some?
    ensures r.Some? ==> r.value.user == req.user.value && r.value.movie == req.movie.value
    ensures r.Some? ==> r.value.functionId == req.functionId.value && r.value.seats == req.seats.value
  {
    if req.user.Some? && req.movie.Some? && req.functionId.Some? && req.seats.Some? then
      Some(ReservationInput(req.user.value, req.movie.value, req.functionId.value, req.seats.value))
    else None
  }

  /** What a handler answers. */
  datatype Outcome =
    | Invalid              // bad request syntax or body
    | NotReserved          // the seats could not be reserved
    | NotRecorded          // the reservation could not be created
    | Created(record: Reservation)
    | NotFound
    | Deleted
    | Listed(found: Found)

  /** The HTTP status each answer is sent with. */
  function Status(o: Outcome): (code: int)
    ensures code == 200 <==> o.Created? || o.Deleted? || o.Listed?
    ensures code == 404 <==> o.NotFound?
    ensures code == 400 <==> o.Invalid? || o.NotReserved? || o.NotRecorded?
  {
    match o
    case Invalid => 400
    case NotReserved => 400
    case NotRecorded => 400
    case NotFound => 404
    case _ => 200
  }

  /** The answer to a booking, given what the booking flow did. */
  function BookingOutcome(b: Booking): (o: Outcome)
    ensures o.NotReserved? <==> b.Refused?
    ensures o.NotRecorded? <==> b.Unrecorded?
    ensures b.Booked? ==> o == Created(b.record)
    ensures Status(o) == 200 <==> b.Booked?
  {
    match b
    case Refused => NotReserved
    case Unrecorded => NotRecorded
    case Booked(r) => Created(r)
  }

  class ReservationController {

    const movies: MovieModel
    const ledger: ReservationModel

    ghost predicate Valid()
      reads movies, ledger
    {
      movies.Valid() && ledger.Valid()
    }

    /** Both collections together. */
    ghost function State(): Db
      reads movies, ledger
    {
      Db(movies.movies, ledger.records)
    }

    constructor (movies: MovieModel, ledger: ReservationModel)
      requires movies.Valid() && ledger.Valid()
      ensures this.movies == movies && this.ledger == ledger
      ensures Valid()
    {
      this.movies := movies;
      this.ledger := ledger;
    }

    /** `getAll`: every reservation, restricted to the date when one is given. */
    method GetAll(date: Option<Timestamp>) returns (o: Outcome)
      ensures o.Listed? && o.found.Many?
      ensures forall r :: r in o.found.all <==> r in ledger.records && (date.Some? ==> r.createdAt == date.value)
    {
      var found := ledger.GetReservations(Query(date, None, Some(true)));
      MatchingExact(ledger.records, Query(date, None, Some(true)));
      o := Listed(found);
    }

    /** `getByUserId`: a missing user id is a bad request; otherwise every
        reservation of the user, restricted to the date when one is given. */
    method GetByUserId(userId: UserId, date: Option<Timestamp>) returns (o: Outcome)
      ensures userId == "" ==> o == Invalid
      ensures userId != "" ==> o.Listed? && o.found.Many?
      ensures userId != "" ==> forall r :: r in o.found.all <==>
        r in ledger.records && r.user == userId && (date.Some? ==> r.createdAt == date.value)
    {
      if userId == "" {
        return Invalid;
      }
      var found := ledger.GetReservations(Query(date, Some(userId), Some(true)));
      MatchingExact(ledger.records, Query(date, Some(userId), Some(true)));
      o := Listed(found);
    }

    /** `create` as written: reserve, then record, with no compensation when
        the record is not stored. */
    method Create(req: Request, id: ReservationId, createdAt: Timestamp, writable: bool) returns (o: Outcome)
      requires Valid()
      modifies movies, ledger
      ensures Valid()
      ensures Validate(req).None? ==> o == Invalid && State() == old(State())
      ensures Validate(req).Some? ==>
        var b := BookAsWritten(old(State()), Validate(req).value, id, createdAt, writable);
        o == BookingOutcome(b.0) && State() == b.1
    {
      var input := Validate(req);
      if input.None? {
        return Invalid;
      }
      var reserved := movies.ReserveSeat(input.value.movie, input.value.functionId, input.value.seats);
      if reserved.None? {
        return NotReserved;
      }
      var rec := ledger.Create(input.value, id, createdAt, writable);
      o := Created(rec);
    }

    /** `create` with the failed save compensated: the seats just taken are
        released and the request is answered as not created. */
    method CreateWithRollback(req: Request, id: ReservationId, createdAt: Timestamp, writable: bool) returns (o: Outcome)
      requires Valid()
      modifies movies, ledger
      ensures Valid()
      ensures Validate(req).None? ==> o == Invalid && State() == old(State())
      ensures Validate(req).Some? ==>
        var b := Book(old(State()), Validate(req).value, id, createdAt, writable);
        o == BookingOutcome(b.0) && State() == b.1
      ensures old(Consistent(State())) ==> Consistent(State())
    {
      var input := Validate(req);
      if input.None? {
        return Invalid;
      }
      ghost var before := State();
      var reserved := movies.ReserveSeat(input.value.movie, input.value.functionId, input.value.seats);
      if reserved.None? {
        return NotReserved;
      }
      var rec := ledger.Insert(input.value, id, createdAt, writable);
      if rec.None? {
        var _ := movies.ReleaseSeats(input.value.movie, input.value.functionId, input.value.seats);
        o := NotRecorded;
      } else {
        o := Created(rec.value);
      }
      if Consistent(before) {
        BookPreservesConsistency(before, input.value, id, createdAt, writable);
      }
    }

    /** `delete` as written: both ids are required; the cancel deletes the
        record and releases its seats in the showtime the caller names;
        a failed release is answered as not found. */
    method Delete(id: ReservationId, functionId: FunctionId) returns (o: Outcome)
      requires Valid()
      modifies movies, ledger
      ensures Valid()
      ensures id == "" || functionId == "" ==> o == Invalid && State() == old(State())
      ensures id != "" && functionId != "" ==>
        var c := CancelAsWritten(old(State()), id, functionId);
        State() == c.1 && o == (if c.0.None? then NotFound else Deleted)
    {
      if id == "" || functionId == "" {
        return Invalid;
      }
      var released := ledger.CancelReservation(id, functionId, movies);
      o := if released.None? then NotFound else Deleted;
    }

    /** `delete` restricted to the record's own showtime: a record of
        another showtime is answered as not found and left in place. */
    method DeleteOwn(id: ReservationId, functionId: FunctionId) returns (o: Outcome)
      requires Valid()
      modifies movies, ledger
      ensures Valid()
      ensures id == "" || functionId == "" ==> o == Invalid && State() == old(State())
      ensures id != "" && functionId != "" ==>
        var c := Cancel(old(State()), id, functionId);
        State() == c.1 && o == (if c.0.None? then NotFound else Deleted)
      ensures old(Consistent(State())) ==> Consistent(State())
    {
      if id == "" || functionId == "" {
        return Invalid;
      }
      ghost var before := State();
      var k := Locate(ledger.records, id);
      if k.None? || ledger.records[k.value].functionId != functionId {
        o := NotFound;
      } else {
        var released := ledger.CancelReservation(id, functionId, movies);
        o := if released.None? then NotFound else Deleted;
      }
      if Consistent(before) {
        CancelPreservesConsistency(before, id, functionId);
      }
    }
  }
}
