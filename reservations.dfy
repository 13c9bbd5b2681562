/** The reservation ledger: records kept in insertion order (the order a
    collection scan returns them in), the filter query over them, and the
    writes that add, change and remove records. */
module Reservations {

  import opened Wrappers
  import opened Seats
  import opened Registry
  import opened Movies

  type ReservationId = string
  type UserId = string

  datatype Reservation = Reservation(
    id: ReservationId,
    user: UserId,
    movie: MovieId,
    functionId: FunctionId,
    seats: seq<SeatNumber>,
    createdAt: Timestamp)

  /** The validated body of a booking request: every field but the id and
      the creation time. */
  datatype ReservationInput = ReservationInput(user: UserId, movie: MovieId, functionId: FunctionId, seats: seq<SeatNumber>)

  /** The record `create` builds from a request: the generated id, the input
      fields and the creation time. */
  function NewRecord(input: ReservationInput, id: ReservationId, createdAt: Timestamp): Reservation
  {
    Reservation(id, input.user, input.movie, input.functionId, input.seats, createdAt)
  }

  /** The arguments of `getReservations`; an absent `multiple` means false. */
  datatype Query = Query(createdAt: Option<Timestamp>, user: Option<UserId>, multiple: Option<bool>)

  /** The filter the query object encodes: `createdAt` is constrained only
      when given, `user` only when given and non-empty (an empty string is
      falsy, so the spread adds nothing). */
  predicate Selects(q: Query, r: Reservation): (b: bool)
    ensures q.createdAt.None? && (q.user.None? || q.user == Some("")) ==> b
    ensures b && q.createdAt.Some? ==> r.createdAt == q.createdAt.value
    ensures b && q.user.Some? && q.user.value != "" ==> r.user == q.user.value
    ensures (q.createdAt.None? || r.createdAt == q.createdAt.value) && (q.user.None? || r.user == q.user.value) ==> b
  {
    && (q.createdAt.Some? ==> r.createdAt == q.createdAt.value)
    && (q.user.Some? && q.user.value != "" ==> r.user == q.user.value)
  }

  /** `find(query)`: every selected record, in ledger order. */
  function Matching(ledger: seq<Reservation>, q: Query): (found: seq<Reservation>)
    ensures |found| <= |ledger|
    ensures forall i :: 0 <= i < |found| ==> Selects(q, found[i])
  {
    if ledger == [] then []
    else (if Selects(q, ledger[0]) then [ledger[0]] else []) + Matching(ledger[1..], q)
  }

  /** A record is found exactly when it is in the ledger and selected. */
  lemma {:induction false} MatchingExact(ledger: seq<Reservation>, q: Query)
    ensures forall r :: r in Matching(ledger, q) <==> r in ledger && Selects(q, r)
  {
    if ledger != [] {
      MatchingExact(ledger[1..], q);
      assert ledger == [ledger[0]] + ledger[1..];
    }
  }

  /** With neither a date nor a user, every record matches. */
  lemma {:induction false} MatchingEverything(ledger: seq<Reservation>, q: Query)
    requires q.createdAt.None? && (q.user.None? || q.user.value == "")
    ensures Matching(ledger, q) == ledger
  {
    if ledger != [] {
      MatchingEverything(ledger[1..], q);
      assert ledger == [ledger[0]] + ledger[1..];
    }
  }

  /** The answer of `getReservations`: the list of matches, or the first
      match (nothing when there is none). */
  datatype Found = Many(all: seq<Reservation>) | One(first: Option<Reservation>)

  function Find(ledger: seq<Reservation>, q: Query): (r: Found)
    ensures r.Many? <==> q.multiple == Some(true)
    ensures r.One? ==> (r.first.None? <==> forall i :: 0 <= i < |ledger| ==> !Selects(q, ledger[i]))
    ensures r.One? && r.first.Some? ==>
      exists k :: 0 <= k < |ledger| && ledger[k] == r.first.value && Selects(q, ledger[k]) &&
        forall j :: 0 <= j < k ==> !Selects(q, ledger[j])
  {
    if q.multiple == Some(true) then Many(Matching(ledger, q))
    else match FirstIndex(ledger, (r: Reservation) => Selects(q, r))
      case None => One(None)
      case Some(k) => One(Some(ledger[k]))
  }

  /** The matches start at the first selected record. */
  lemma {:induction false} MatchingFrom(ledger: seq<Reservation>, q: Query, k: nat)
    requires k < |ledger| && Selects(q, ledger[k])
    requires forall j :: 0 <= j < k ==> !Selects(q, ledger[j])
    ensures Matching(ledger, q) == [ledger[k]] + Matching(ledger[k + 1..], q)
  {
    if k > 0 {
      MatchingFrom(ledger[1..], q, k - 1);
      assert ledger[1..][k..] == ledger[k + 1..];
    }
  }

  /** `findOne` returns the head of what `find` returns for the same filter. */
  lemma FindOneIsFirstOfMany(ledger: seq<Reservation>, q: Query)
    ensures Find(ledger, q.(multiple := None)) ==
      One(if Matching(ledger, q) == [] then None else Some(Matching(ledger, q)[0]))
  {
    var one := Find(ledger, q.(multiple := None));
    MatchingExact(ledger, q);
    if one.first.Some? {
      var k :| 0 <= k < |ledger| && ledger[k] == one.first.value && Selects(q, ledger[k]) &&
        forall j :: 0 <= j < k ==> !Selects(q, ledger[j]);
      MatchingFrom(ledger, q, k);
    } else {
      MatchingNone(ledger, q);
    }
  }

  /** Nothing matches when no record is selected. */
  lemma {:induction false} MatchingNone(ledger: seq<Reservation>, q: Query)
    requires forall i :: 0 <= i < |ledger| ==> !Selects(q, ledger[i])
    ensures Matching(ledger, q) == []
  {
    if ledger != [] {
      MatchingNone(ledger[1..], q);
    }
  }

  /** Reservation ids are unique in the ledger. */
  predicate UniqueIds(ledger: seq<Reservation>)
  {
    forall i, j :: 0 <= i < j < |ledger| ==> ledger[i].id != ledger[j].id
  }

  /** Where a lookup by id lands: the first record with the id. */
  function Locate(ledger: seq<Reservation>, id: ReservationId): (k: Option<nat>)
    ensures k.None? <==> forall i :: 0 <= i < |ledger| ==> ledger[i].id != id
    ensures k.Some? ==> k.value < |ledger| && ledger[k.value].id == id
    ensures k.Some? ==> forall j :: 0 <= j < k.value ==> ledger[j].id != id
  {
    FirstIndex(ledger, (r: Reservation) => r.id == id)
  }

  /** With unique ids, the located record is the only one with the id. */
  lemma LocateUnique(ledger: seq<Reservation>, id: ReservationId, i: nat)
    requires UniqueIds(ledger)
    requires i < |ledger| && ledger[i].id == id
    ensures Locate(ledger, id) == Some(i)
  {
  }

  function RemoveAt(ledger: seq<Reservation>, k: nat): seq<Reservation>
    requires k < |ledger|
  {
    ledger[..k] + ledger[k + 1..]
  }

  /** Removing the located record drops exactly that id and keeps the rest
      unique and in order. */
  lemma RemoveById(ledger: seq<Reservation>, id: ReservationId, k: nat)
    requires UniqueIds(ledger)
    requires Locate(ledger, id) == Some(k)
    ensures UniqueIds(RemoveAt(ledger, k))
    ensures |RemoveAt(ledger, k)| == |ledger| - 1
    ensures forall i :: 0 <= i < |RemoveAt(ledger, k)| ==> RemoveAt(ledger, k)[i].id != id
    ensures forall i :: 0 <= i < |ledger| && i != k ==> ledger[i] in RemoveAt(ledger, k)
  {
    var rest := RemoveAt(ledger, k);
    forall i | 0 <= i < |ledger| && i != k ensures ledger[i] in rest {
      if i < k {
        assert rest[i] == ledger[i];
      } else {
        assert rest[i - 1] == ledger[i];
      }
    }
  }

  /** The ledger after `save()`: the new record is appended when the write
      succeeds; a failed write (a storage error or an id already taken)
      leaves the ledger as it was. */
  function Stored(ledger: seq<Reservation>, r: Reservation, writable: bool): (s: seq<Reservation>)
    ensures s == ledger || s == ledger + [r]
    ensures s != ledger <==> writable && forall i :: 0 <= i < |ledger| ==> ledger[i].id != r.id
  {
    if writable && Locate(ledger, r.id).None? then ledger + [r] else ledger
  }

  /** A write either appends the record under its fresh id or changes
      nothing, and the ids stay unique either way. */
  lemma StoreOutcome(ledger: seq<Reservation>, r: Reservation, writable: bool)
    requires UniqueIds(ledger)
    ensures UniqueIds(Stored(ledger, r, writable))
    ensures Stored(ledger, r, writable) != ledger <==> writable && forall i :: 0 <= i < |ledger| ==> ledger[i].id != r.id
    ensures Stored(ledger, r, writable) != ledger ==> Locate(Stored(ledger, r, writable), r.id) == Some(|ledger|) && Stored(ledger, r, writable)[|ledger|] == r
  {
    var after := Stored(ledger, r, writable);
    if writable && Locate(ledger, r.id).None? {
      assert after == ledger + [r];
      assert after[|ledger|] == r;
      forall j | 0 <= j < |ledger| ensures after[j].id != r.id {
        assert after[j] == ledger[j];
      }
    }
  }

  /** The fields an update request may carry; each present one overwrites
      the stored value. */
  datatype ReservationPatch = ReservationPatch(
    user: Option<UserId>,
    movie: Option<MovieId>,
    functionId: Option<FunctionId>,
    seats: Option<seq<SeatNumber>>,
    createdAt: Option<Timestamp>)

  function Patched(r: Reservation, p: ReservationPatch): (s: Reservation)
    ensures s.id == r.id
    ensures s.user == (if p.user.Some? then p.user.value else r.user)
    ensures s.movie == (if p.movie.Some? then p.movie.value else r.movie)
    ensures s.functionId == (if p.functionId.Some? then p.functionId.value else r.functionId)
    ensures s.seats == (if p.seats.Some? then p.seats.value else r.seats)
    ensures s.createdAt == (if p.createdAt.Some? then p.createdAt.value else r.createdAt)
  {
    Reservation(
      r.id,
      if p.user.Some? then p.user.value else r.user,
      if p.movie.Some? then p.movie.value else r.movie,
      if p.functionId.Some? then p.functionId.value else r.functionId,
      if p.seats.Some? then p.seats.value else r.seats,
      if p.createdAt.Some? then p.createdAt.value else r.createdAt)
  }

  /** Sending the same update twice has the effect of sending it once. */
  lemma PatchIdempotent(r: Reservation, p: ReservationPatch)
    ensures Patched(Patched(r, p), p) == Patched(r, p)
  {
  }

  /** The two collections the reservation flows touch. */
  datatype Db = Db(movies: map<MovieId, MovieDoc>, ledger: seq<Reservation>)

  /** `cancelReservation` as written: delete the record by id, then release
      its seats in the showtime the CALLER names. The second component is
      the database afterwards. */
  function CancelAsWritten(db: Db, reservationId: ReservationId, functionId: FunctionId): (r: (Option<MovieDoc>, Db))
    ensures Locate(db.ledger, reservationId).None? ==> r == (None, db)
    ensures r.0.Some? ==> Locate(db.ledger, reservationId).Some?
    ensures r.0.None? ==> r.1.movies == db.movies
    ensures |r.1.ledger| == |db.ledger| - (if Locate(db.ledger, reservationId).Some? then 1 else 0)
    ensures UniqueIds(db.ledger) ==> forall i :: 0 <= i < |r.1.ledger| ==> r.1.ledger[i].id != reservationId
  {
    match Locate(db.ledger, reservationId)
    case None => (None, db)
    case Some(k) =>
      assert UniqueIds(db.ledger) ==> forall i :: 0 <= i < |RemoveAt(db.ledger, k)| ==> RemoveAt(db.ledger, k)[i].id != reservationId by {
        if UniqueIds(db.ledger) {
          RemoveById(db.ledger, reservationId, k);
        }
      }
      var rec := db.ledger[k];
      var released := FlipIn(db.movies, rec.movie, functionId, rec.seats, false);
      (released, Db(Saved(db.movies, rec.movie, released), RemoveAt(db.ledger, k)))
  }

  class ReservationModel {

    var records: seq<Reservation>

    ghost predicate Valid()
      reads this
    {
      UniqueIds(records)
    }

    constructor (initial: seq<Reservation>)
      requires UniqueIds(initial)
      ensures Valid() && records == initial
    {
      records := initial;
    }

    /** `getReservations`: a read that changes nothing. */
    method GetReservations(q: Query) returns (r: Found)
      ensures r == Find(records, q)
    {
      r := Find(records, q);
    }

    /** `create`: build the record under the generated id and save it. A
        failed save is logged and swallowed, so the record is returned
        whether or not it was stored. */
    method Create(input: ReservationInput, id: ReservationId, createdAt: Timestamp, writable: bool) returns (r: Reservation)
      requires Valid()
      modifies this
      ensures Valid()
      ensures r == NewRecord(input, id, createdAt)
      ensures records == Stored(old(records), r, writable)
    {
      r := NewRecord(input, id, createdAt);
      StoreOutcome(records, r, writable);
      records := Stored(records, r, writable);
    }

    /** `create` with a failed save reported (nothing) instead of swallowed. */
    method Insert(input: ReservationInput, id: ReservationId, createdAt: Timestamp, writable: bool) returns (r: Option<Reservation>)
      requires Valid()
      modifies this
      ensures Valid()
      ensures records == Stored(old(records), NewRecord(input, id, createdAt), writable)
      ensures r.Some? <==> writable && Locate(old(records), id).None?
      ensures r.Some? ==> r.value == NewRecord(input, id, createdAt)
    {
      var rec := NewRecord(input, id, createdAt);
      StoreOutcome(records, rec, writable);
      if writable && Locate(records, id).None? {
        records := records + [rec];
        r := Some(rec);
      } else {
        r := None;
      }
    }

    /** `update`: overwrite the given fields of the record with the id and
        return the new record; nothing when no record has the id. */
    method Update(id: ReservationId, patch: ReservationPatch) returns (r: Option<Reservation>)
      requires Valid()
      modifies this
      ensures Valid()
      ensures Locate(old(records), id).None? ==> r.None? && records == old(records)
      ensures Locate(old(records), id).Some? ==>
        var k := Locate(old(records), id).value;
        r == Some(Patched(old(records)[k], patch)) && records == old(records)[k := r.value]
    {
      var found := Locate(records, id);
      if found.None? {
        return None;
      }
      var k := found.value;
      var updated := Patched(records[k], patch);
      records := records[k := updated];
      r := Some(updated);
    }

    /** `delete`: remove the record with the id and return it; nothing when
        no record has the id. */
    method Delete(id: ReservationId) returns (r: Option<Reservation>)
      requires Valid()
      modifies this
      ensures Valid()
      ensures Locate(old(records), id).None? ==> r.None? && records == old(records)
      ensures Locate(old(records), id).Some? ==>
        var k := Locate(old(records), id).value;
        r == Some(old(records)[k]) && records == RemoveAt(old(records), k)
    {
      var found := Locate(records, id);
      if found.None? {
        return None;
      }
      var k := found.value;
      RemoveById(records, id, k);
      r := Some(records[k]);
      records := RemoveAt(records, k);
    }

    /** `cancelReservation`: the delete, then the release update against the
        movies collection. */
    method CancelReservation(reservationId: ReservationId, functionId: FunctionId, movies: MovieModel) returns (r: Option<MovieDoc>)
      requires Valid() && movies.Valid()
      modifies this, movies
      ensures Valid() && movies.Valid()
      ensures (r, Db(movies.movies, records)) == CancelAsWritten(Db(old(movies.movies), old(records)), reservationId, functionId)
    {
      var removed := Delete(reservationId);
      if removed.None? {
        return None;
      }
      r := movies.ReleaseSeats(removed.value.movie, functionId, removed.value.seats);
    }
  }
}
