/** A movie's showtimes ("functions") and the operations every draft of the
    movie model shares: lookup by id, removal by id, and the conditional seat
    update that one `findOneAndUpdate` performs on a movie document.

    A showtime is generic in its schedule `W`: the datetime drafts use one
    timestamp, the older function model a date and a time. */
module Registry {

  import opened Wrappers
  import opened Seats

  type MovieId = string
  type FunctionId = string

  /** Milliseconds since the epoch; parsing of date strings is not modelled. */
  type Timestamp = int

  datatype Function<W> = Function(id: FunctionId, schedule: W, seats: seq<Seat>)

  /** A movie document: its descriptive fields (title, year, ...) as named
      values, and the showtimes it owns. */
  datatype Movie<W> = Movie(id: MovieId, details: map<string, string>, functions: seq<Function<W>>)

  /** The index of the first element satisfying `p` (`Array.prototype.find`). */
  function FirstIndex<T>(s: seq<T>, p: T -> bool): (k: Option<nat>)
    ensures k.Some? ==> k.value < |s| && p(s[k.value])
    ensures k.Some? ==> forall j :: 0 <= j < k.value ==> !p(s[j])
    ensures k.None? ==> forall j :: 0 <= j < |s| ==> !p(s[j])
  {
    if s == [] then None
    else if p(s[0]) then Some(0)
    else match FirstIndex(s[1..], p)
      case None => None
      case Some(k) => Some(k + 1)
  }

  function HasId<W>(fid: FunctionId): Function<W> -> bool
  {
    (f: Function<W>) => f.id == fid
  }

  /** Position `k` holds the first showtime with id `fid`. */
  predicate FirstWithId<W>(fs: seq<Function<W>>, fid: FunctionId, k: int)
  {
    0 <= k < |fs| && fs[k].id == fid && forall j :: 0 <= j < k ==> fs[j].id != fid
  }

  /** The showtime a lookup by id finds: the first one carrying `fid`. */
  function FindFunction<W>(fs: seq<Function<W>>, fid: FunctionId): (r: Option<Function<W>>)
    ensures r.Some? ==> r.value in fs && r.value.id == fid
    ensures r.None? <==> forall k :: 0 <= k < |fs| ==> fs[k].id != fid
  {
    match FirstIndex(fs, HasId(fid))
    case None => None
    case Some(k) => Some(fs[k])
  }

  /** `getFunctions`: the showtimes of a stored movie, or nothing when the
      movie is absent. */
  function GetFunctions<W>(movies: map<MovieId, Movie<W>>, movieId: MovieId): (r: Option<seq<Function<W>>>)
    ensures r.None? <==> movieId !in movies
    ensures r.Some? ==> r.value == movies[movieId].functions
  {
    if movieId in movies then Some(movies[movieId].functions) else None
  }

  /** `getAvailableSeats`: nothing when the movie or the showtime is absent,
      otherwise the free seats of the first showtime with that id, in order. */
  function AvailableSeats<W>(movies: map<MovieId, Movie<W>>, movieId: MovieId, fid: FunctionId): (r: Option<seq<Seat>>)
    ensures r.None? <==> movieId !in movies || forall k :: 0 <= k < |movies[movieId].functions| ==> movies[movieId].functions[k].id != fid
    ensures r.Some? ==>
      exists k :: FirstWithId(movies[movieId].functions, fid, k) &&
        r.value == Available(movies[movieId].functions[k].seats) &&
        forall s :: s in r.value <==> s in movies[movieId].functions[k].seats && s.isAvailable
  {
    if movieId !in movies then None
    else match FindFunction(movies[movieId].functions, fid)
      case None => None
      case Some(f) => Some(Available(f.seats))
  }

  /** The showtimes whose id differs from `fid`, in order: removal by id,
      whether written as a `filter` or as a `pull`. */
  function WithoutFunction<W>(fs: seq<Function<W>>, fid: FunctionId): (r: seq<Function<W>>)
    ensures |r| <= |fs|
    ensures forall i :: 0 <= i < |r| ==> r[i].id != fid
  {
    if fs == [] then []
    else (if fs[0].id == fid then [] else [fs[0]]) + WithoutFunction(fs[1..], fid)
  }

  /** Removal keeps every other showtime and brings in nothing new. */
  lemma {:induction false} DeleteKeepsOthers<W>(fs: seq<Function<W>>, fid: FunctionId)
    ensures forall i :: 0 <= i < |WithoutFunction(fs, fid)| ==> WithoutFunction(fs, fid)[i] in fs
    ensures forall i :: 0 <= i < |fs| && fs[i].id != fid ==> fs[i] in WithoutFunction(fs, fid)
  {
    if fs != [] {
      DeleteKeepsOthers(fs[1..], fid);
    }
  }

  /** Removing an id that is not there returns the list unchanged. */
  lemma {:induction false} DeleteAbsentIsNoOp<W>(fs: seq<Function<W>>, fid: FunctionId)
    requires forall k :: 0 <= k < |fs| ==> fs[k].id != fid
    ensures WithoutFunction(fs, fid) == fs
  {
    if fs != [] {
      DeleteAbsentIsNoOp(fs[1..], fid);
    }
  }

  /** Removing the same id twice is removing it once. */
  lemma DeleteIdempotent<W>(fs: seq<Function<W>>, fid: FunctionId)
    ensures WithoutFunction(WithoutFunction(fs, fid), fid) == WithoutFunction(fs, fid)
  {
    var once := WithoutFunction(fs, fid);
    DeleteAbsentIsNoOp(once, fid);
  }

  /** Removal keeps the order of what remains: it distributes over concatenation. */
  lemma {:induction false} DeleteKeepsOrder<W>(a: seq<Function<W>>, b: seq<Function<W>>, fid: FunctionId)
    ensures WithoutFunction(a + b, fid) == WithoutFunction(a, fid) + WithoutFunction(b, fid)
  {
    if a == [] {
      assert a + b == b;
    } else {
      assert (a + b)[1..] == a[1..] + b;
      DeleteKeepsOrder(a[1..], b, fid);
    }
  }

  /** With unique ids, removal takes out exactly the one showtime with that id. */
  lemma DeleteRemovesOne<W>(fs: seq<Function<W>>, fid: FunctionId, k: nat)
    requires UniqueFunctionIds(fs)
    requires k < |fs| && fs[k].id == fid
    ensures WithoutFunction(fs, fid) == fs[..k] + fs[k + 1..]
  {
    var before, after := fs[..k], fs[k + 1..];
    assert fs == before + ([fs[k]] + after);
    forall i | 0 <= i < |before| ensures before[i].id != fid {
      assert before[i] == fs[i];
    }
    forall i | 0 <= i < |after| ensures after[i].id != fid {
      assert after[i] == fs[k + 1 + i];
    }
    DeleteOnlyMatch(before, fs[k], after, fid);
  }

  lemma DeleteOnlyMatch<W>(before: seq<Function<W>>, f: Function<W>, after: seq<Function<W>>, fid: FunctionId)
    requires f.id == fid
    requires forall i :: 0 <= i < |before| ==> before[i].id != fid
    requires forall i :: 0 <= i < |after| ==> after[i].id != fid
    ensures WithoutFunction(before + ([f] + after), fid) == before + after
  {
    DeleteAbsentIsNoOp(before, fid);
    DeleteAbsentIsNoOp(after, fid);
    DeleteKeepsOrder(before, [f] + after, fid);
    DeleteKeepsOrder([f], after, fid);
    assert [f][1..] == [];
  }

  /** Showtime ids are unique within a movie. */
  predicate UniqueFunctionIds<W>(fs: seq<Function<W>>)
  {
    forall i, j :: 0 <= i < j < |fs| ==> fs[i].id != fs[j].id
  }

  /** The shape every movie keeps: unique showtime ids, and no seat number
      twice in one seat map. */
  predicate WellFormed<W>(m: Movie<W>)
  {
    && UniqueFunctionIds(m.functions)
    && forall k :: 0 <= k < |m.functions| ==> DistinctNumbers(m.functions[k].seats)
  }

  lemma {:induction false} DeleteKeepsIdsUnique<W>(fs: seq<Function<W>>, fid: FunctionId)
    requires UniqueFunctionIds(fs)
    ensures UniqueFunctionIds(WithoutFunction(fs, fid))
  {
    if fs != [] {
      var rest := WithoutFunction(fs[1..], fid);
      DeleteKeepsIdsUnique(fs[1..], fid);
      DeleteKeepsOthers(fs[1..], fid);
      if fs[0].id != fid {
        forall i | 0 <= i < |rest| ensures rest[i].id != fs[0].id {
          var a :| 0 <= a < |fs[1..]| && fs[1..][a] == rest[i];
          assert fs[1..][a] == fs[a + 1];
        }
        var r := [fs[0]] + rest;
        forall i, j | 0 <= i < j < |r| ensures r[i].id != r[j].id {
          if i > 0 {
            assert r[i] == rest[i - 1] && r[j] == rest[j - 1];
          } else {
            assert r[j] == rest[j - 1];
          }
        }
      }
    }
  }

  lemma DeletePreservesWellFormed<W>(m: Movie<W>, fid: FunctionId)
    requires WellFormed(m)
    ensures WellFormed(m.(functions := WithoutFunction(m.functions, fid)))
  {
    var fs := m.functions;
    var r := WithoutFunction(fs, fid);
    DeleteKeepsIdsUnique(fs, fid);
    DeleteKeepsOthers(fs, fid);
    forall k | 0 <= k < |r| ensures DistinctNumbers(r[k].seats) {
      var a :| 0 <= a < |fs| && fs[a] == r[k];
    }
  }

  /** The `arrayFilters` update: in every showtime with id `fid`, the seats
      whose number is requested get availability `flag`; nothing else moves. */
  function SetFunctionFlags<W>(fs: seq<Function<W>>, fid: FunctionId, numbers: seq<SeatNumber>, flag: bool): (r: seq<Function<W>>)
    ensures |r| == |fs|
    ensures forall k :: 0 <= k < |r| ==> r[k].id == fs[k].id && r[k].schedule == fs[k].schedule
    ensures forall k :: 0 <= k < |r| && fs[k].id != fid ==> r[k] == fs[k]
    ensures forall k :: 0 <= k < |r| && fs[k].id == fid ==> r[k].seats == SetFlags(fs[k].seats, numbers, flag)
  {
    seq(|fs|, k requires 0 <= k < |fs| =>
      if fs[k].id == fid then fs[k].(seats := SetFlags(fs[k].seats, numbers, flag)) else fs[k])
  }

  /** The filter of the update: some showtime with id `fid` has, for every
      requested number, a seat with availability `flag`. */
  predicate Matches<W>(m: Movie<W>, fid: FunctionId, numbers: seq<SeatNumber>, flag: bool)
  {
    exists k :: 0 <= k < |m.functions| && m.functions[k].id == fid && HoldsAll(m.functions[k].seats, numbers, flag)
  }

  /** One conditional `findOneAndUpdate` on a movie: when the filter holds,
      every requested seat of the showtime is switched away from `from` and
      the new document is returned; otherwise nothing changes (`null`). */
  function FlipSeats<W>(m: Movie<W>, fid: FunctionId, numbers: seq<SeatNumber>, from: bool): (r: Option<Movie<W>>)
    ensures r.Some? <==> Matches(m, fid, numbers, from)
    ensures r.Some? ==> r.value.id == m.id && r.value.details == m.details
    ensures r.Some? ==> r.value.functions == SetFunctionFlags(m.functions, fid, numbers, !from)
  {
    if Matches(m, fid, numbers, from) then Some(m.(functions := SetFunctionFlags(m.functions, fid, numbers, !from))) else None
  }

  /** `reserveSeat`: take the requested seats of showtime `fid` if every one is free. */
  function Reserve<W>(m: Movie<W>, fid: FunctionId, numbers: seq<SeatNumber>): (r: Option<Movie<W>>)
    ensures r.Some? <==> Matches(m, fid, numbers, true)
    ensures r.Some? ==> Matches(r.value, fid, numbers, false)
    ensures r.Some? ==> r.value.id == m.id && r.value.details == m.details && |r.value.functions| == |m.functions|
    ensures r.Some? ==> forall k :: 0 <= k < |m.functions| && m.functions[k].id != fid ==> r.value.functions[k] == m.functions[k]
  {
    if Matches(m, fid, numbers, true) then
      FlipHoldsAll(m, fid, numbers, true);
      FlipSeats(m, fid, numbers, true)
    else None
  }

  /** The release half of `cancelReservation`: free the seats if every one is taken. */
  function Release<W>(m: Movie<W>, fid: FunctionId, numbers: seq<SeatNumber>): (r: Option<Movie<W>>)
    ensures r.Some? <==> Matches(m, fid, numbers, false)
    ensures r.Some? ==> Matches(r.value, fid, numbers, true)
    ensures r.Some? ==> r.value.id == m.id && r.value.details == m.details && |r.value.functions| == |m.functions|
    ensures r.Some? ==> forall k :: 0 <= k < |m.functions| && m.functions[k].id != fid ==> r.value.functions[k] == m.functions[k]
  {
    if Matches(m, fid, numbers, false) then
      FlipHoldsAll(m, fid, numbers, false);
      FlipSeats(m, fid, numbers, false)
    else None
  }

  /** The update run against the collection: the `_id` filter on the movie, then the flip. */
  function FlipIn<W>(movies: map<MovieId, Movie<W>>, movieId: MovieId, fid: FunctionId, numbers: seq<SeatNumber>, from: bool): (r: Option<Movie<W>>)
    ensures r.Some? ==> movieId in movies && r == FlipSeats(movies[movieId], fid, numbers, from)
    ensures movieId in movies ==> r == FlipSeats(movies[movieId], fid, numbers, from)
  {
    if movieId in movies then FlipSeats(movies[movieId], fid, numbers, from) else None
  }

  /** The collection after a conditional update: the returned document replaces the stored one. */
  function Saved<W>(movies: map<MovieId, Movie<W>>, movieId: MovieId, r: Option<Movie<W>>): map<MovieId, Movie<W>>
  {
    if r.Some? then movies[movieId := r.value] else movies
  }

  /** All or nothing: one requested number without a free seat in the
      showtime makes the whole reservation fail, so no seat is taken. */
  lemma NoPartialFlip<W>(m: Movie<W>, fid: FunctionId, numbers: seq<SeatNumber>, n: SeatNumber)
    requires n in numbers
    requires forall k :: 0 <= k < |m.functions| && m.functions[k].id == fid ==> !HasSeat(m.functions[k].seats, n, true)
    ensures Reserve(m, fid, numbers) == None
  {
  }

  /** Every seat of a showtime with id `fid` whose number is listed has availability `flag`. */
  predicate AllSet<W>(m: Movie<W>, fid: FunctionId, numbers: seq<SeatNumber>, flag: bool)
  {
    forall k, i :: 0 <= k < |m.functions| && m.functions[k].id == fid && 0 <= i < |m.functions[k].seats| ==>
      (m.functions[k].seats[i].seatNumber in numbers ==> m.functions[k].seats[i].isAvailable == flag)
  }

  /** After a successful reservation every requested seat of the showtime is
      taken; after a successful release every one is free again. */
  lemma FlippedSeatsSet<W>(m: Movie<W>, fid: FunctionId, numbers: seq<SeatNumber>, from: bool)
    requires FlipSeats(m, fid, numbers, from).Some?
    ensures AllSet(FlipSeats(m, fid, numbers, from).value, fid, numbers, !from)
  {
  }

  /** No double booking: once a reservation succeeds, any later request that
      shares a seat number with it in the same showtime fails. */
  lemma NoDoubleBooking<W>(m: Movie<W>, fid: FunctionId, first: seq<SeatNumber>, second: seq<SeatNumber>, n: SeatNumber)
    requires Reserve(m, fid, first).Some?
    requires n in first && n in second
    ensures Reserve(Reserve(m, fid, first).value, fid, second) == None
  {
    var after := Reserve(m, fid, first).value;
    forall k | 0 <= k < |after.functions| && after.functions[k].id == fid
      ensures !HasSeat(after.functions[k].seats, n, true)
    {
      var seats := after.functions[k].seats;
      assert seats == SetFlags(m.functions[k].seats, first, false);
      forall i | 0 <= i < |seats| && seats[i].seatNumber == n ensures !seats[i].isAvailable {
      }
    }
    NoPartialFlip(after, fid, second, n);
  }

  /** No false contention: two reservations of disjoint seat sets that could
      each succeed on their own both succeed, one after the other. */
  lemma DisjointReservationsBothSucceed<W>(m: Movie<W>, fid: FunctionId, a: seq<SeatNumber>, b: seq<SeatNumber>)
    requires Reserve(m, fid, a).Some? && Reserve(m, fid, b).Some?
    requires forall n :: n in a ==> n !in b
    ensures Reserve(Reserve(m, fid, a).value, fid, b).Some?
  {
    var after := Reserve(m, fid, a).value;
    var k :| 0 <= k < |m.functions| && m.functions[k].id == fid && HoldsAll(m.functions[k].seats, b, true);
    var seats := after.functions[k].seats;
    assert seats == SetFlags(m.functions[k].seats, a, false);
    forall n | n in b ensures HasSeat(seats, n, true) {
      var i :| 0 <= i < |m.functions[k].seats| && m.functions[k].seats[i].seatNumber == n && m.functions[k].seats[i].isAvailable;
      assert seats[i] == m.functions[k].seats[i];
    }
    assert Matches(after, fid, b, true);
  }

  /** Releasing what a reservation just took restores the movie exactly. */
  lemma ReleaseUndoesReserve<W>(m: Movie<W>, fid: FunctionId, numbers: seq<SeatNumber>)
    requires WellFormed(m)
    requires Reserve(m, fid, numbers).Some?
    ensures Release(Reserve(m, fid, numbers).value, fid, numbers) == Some(m)
  {
    var after := Reserve(m, fid, numbers).value;
    var k :| 0 <= k < |m.functions| && m.functions[k].id == fid && HoldsAll(m.functions[k].seats, numbers, true);
    var seats := m.functions[k].seats;
    assert after.functions[k].seats == SetFlags(seats, numbers, false);
    forall n | n in numbers ensures HasSeat(after.functions[k].seats, n, false) {
      var i :| 0 <= i < |seats| && seats[i].seatNumber == n && seats[i].isAvailable;
    }
    assert Matches(after, fid, numbers, false);
    var back := SetFunctionFlags(after.functions, fid, numbers, true);
    forall j | 0 <= j < |m.functions| ensures back[j] == m.functions[j] {
      if m.functions[j].id == fid {
        assert j == k;
        SetFlagsUndo(seats, numbers, true);
      }
    }
    assert back == m.functions;
  }

  /** A conditional flip keeps a movie well formed. */
  lemma FlipPreservesWellFormed<W>(m: Movie<W>, fid: FunctionId, numbers: seq<SeatNumber>, from: bool)
    requires WellFormed(m)
    requires FlipSeats(m, fid, numbers, from).Some?
    ensures WellFormed(FlipSeats(m, fid, numbers, from).value)
  {
    var after := FlipSeats(m, fid, numbers, from).value;
    forall k | 0 <= k < |after.functions| ensures DistinctNumbers(after.functions[k].seats) {
    }
  }

  /** After a successful reservation, the free list of the showtime is the old
      free list without the requested numbers, in the same order. */
  lemma AvailableAfterReserve<W>(m: Movie<W>, fid: FunctionId, numbers: seq<SeatNumber>, k: nat)
    requires Reserve(m, fid, numbers).Some?
    requires k < |m.functions| && m.functions[k].id == fid
    ensures Available(Reserve(m, fid, numbers).value.functions[k].seats) == Drop(Available(m.functions[k].seats), numbers)
  {
    AvailableAfterTaking(m.functions[k].seats, numbers);
  }

  /** After a successful flip every listed number is held with the new flag,
      so the mirror-image update would match. */
  lemma FlipHoldsAll<W>(m: Movie<W>, fid: FunctionId, numbers: seq<SeatNumber>, from: bool)
    requires FlipSeats(m, fid, numbers, from).Some?
    ensures Matches(FlipSeats(m, fid, numbers, from).value, fid, numbers, !from)
  {
    var after := FlipSeats(m, fid, numbers, from).value;
    var k :| 0 <= k < |m.functions| && m.functions[k].id == fid && HoldsAll(m.functions[k].seats, numbers, from);
    var seats := after.functions[k].seats;
    forall n | n in numbers ensures HasSeat(seats, n, !from) {
      var i :| 0 <= i < |m.functions[k].seats| && m.functions[k].seats[i].seatNumber == n && m.functions[k].seats[i].isAvailable == from;
      assert seats[i].seatNumber == n && seats[i].isAvailable == !from;
    }
  }

  /** A flip leaves a condition on other numbers standing: one on another
      showtime, one on numbers outside the list, and one asking for the
      flag the flip writes. */
  lemma FlipKeepsHolds<W>(m: Movie<W>, fid: FunctionId, numbers: seq<SeatNumber>, from: bool,
                          other: FunctionId, held: seq<SeatNumber>, flag: bool)
    requires FlipSeats(m, fid, numbers, from).Some?
    requires Matches(m, other, held, flag)
    requires other != fid || flag == !from || forall n :: n in held ==> n !in numbers
    ensures Matches(FlipSeats(m, fid, numbers, from).value, other, held, flag)
  {
    var after := FlipSeats(m, fid, numbers, from).value;
    var k :| 0 <= k < |m.functions| && m.functions[k].id == other && HoldsAll(m.functions[k].seats, held, flag);
    var seats := after.functions[k].seats;
    forall n | n in held ensures HasSeat(seats, n, flag) {
      var i :| 0 <= i < |m.functions[k].seats| && m.functions[k].seats[i].seatNumber == n && m.functions[k].seats[i].isAvailable == flag;
      assert seats[i].seatNumber == n && seats[i].isAvailable == flag;
    }
  }

  /** In a well-formed movie no number can be both held taken and held free
      in one showtime. */
  lemma TakenAndFreeDisjoint<W>(m: Movie<W>, fid: FunctionId, taken: seq<SeatNumber>, free: seq<SeatNumber>)
    requires WellFormed(m)
    requires Matches(m, fid, taken, false) && Matches(m, fid, free, true)
    ensures forall n :: n in taken ==> n !in free
  {
    var k1 :| 0 <= k1 < |m.functions| && m.functions[k1].id == fid && HoldsAll(m.functions[k1].seats, taken, false);
    var k2 :| 0 <= k2 < |m.functions| && m.functions[k2].id == fid && HoldsAll(m.functions[k2].seats, free, true);
    assert k1 == k2;
    HeldSeatsAreFree(m.functions[k1].seats, taken, false);
    forall n | n in taken ensures n !in free {
      var i :| 0 <= i < |m.functions[k1].seats| && m.functions[k1].seats[i].seatNumber == n && !m.functions[k1].seats[i].isAvailable;
      assert n in free ==> HasSeat(m.functions[k1].seats, n, true);
    }
  }
}
