/** The movie model of the datetime drafts: a collection of movie documents
    whose showtimes carry one timestamp. Each method is one load, change and
    save of a document, taken as a single atomic step. */
module Movies {

  import opened Wrappers
  import opened Seats
  import opened Registry

  type Showtime = Function<Timestamp>
  type MovieDoc = Movie<Timestamp>

  /** One entry of `updates`: move the showtime at `datetime` to `newDatetime`
      (absent when the request leaves it empty). */
  datatype Reschedule = Reschedule(datetime: Timestamp, newDatetime: Option<Timestamp>)

  /** The showtimes `addFunction` pushes: one per input, in input order, each
      with a freshly generated seat map. */
  function NewShowtimes(ids: seq<FunctionId>, datetimes: seq<Timestamp>): seq<Showtime>
    requires |ids| == |datetimes|
  {
    seq(|ids|, i requires 0 <= i < |ids| => Function(ids[i], datetimes[i], Layout()))
  }

  function ScheduledAt(t: Timestamp): Showtime -> bool
  {
    (f: Showtime) => f.schedule == t
  }

  /** Position `k` holds the first showtime scheduled at `t`. */
  predicate FirstAt(fs: seq<Showtime>, t: Timestamp, k: int)
  {
    0 <= k < |fs| && fs[k].schedule == t && forall j :: 0 <= j < k ==> fs[j].schedule != t
  }

  /** One pass of the `updateFunction` loop: the first showtime whose datetime
      equals `u.datetime` is moved, when a new datetime is given. */
  function RescheduleOne(fs: seq<Showtime>, u: Reschedule): (r: seq<Showtime>)
    ensures |r| == |fs|
    ensures forall k :: 0 <= k < |r| ==> r[k].id == fs[k].id && r[k].seats == fs[k].seats
    ensures u.newDatetime.None? ==> r == fs
    ensures (forall k :: 0 <= k < |fs| ==> fs[k].schedule != u.datetime) ==> r == fs
    ensures forall k :: FirstAt(fs, u.datetime, k) && u.newDatetime.Some? ==>
      r == fs[k := fs[k].(schedule := u.newDatetime.value)]
  {
    match FirstIndex(fs, ScheduledAt(u.datetime))
    case None => fs
    case Some(k) =>
      if u.newDatetime.Some? then fs[k := fs[k].(schedule := u.newDatetime.value)] else fs
  }

  /** The whole `updates` list, applied in order: later entries see the
      datetimes earlier entries wrote. */
  function RescheduleAll(fs: seq<Showtime>, us: seq<Reschedule>): (r: seq<Showtime>)
    ensures (forall i :: 0 <= i < |us| ==> us[i].newDatetime.None?) ==> r == fs
    decreases |us|
  {
    if us == [] then fs else RescheduleAll(RescheduleOne(fs, us[0]), us[1..])
  }

  /** Rescheduling never adds, removes, reorders or re-seats a showtime. */
  lemma {:induction false} RescheduleKeepsIdsAndSeats(fs: seq<Showtime>, us: seq<Reschedule>)
    ensures |RescheduleAll(fs, us)| == |fs|
    ensures forall k :: 0 <= k < |fs| ==>
      RescheduleAll(fs, us)[k].id == fs[k].id && RescheduleAll(fs, us)[k].seats == fs[k].seats
    decreases |us|
  {
    if us != [] {
      RescheduleKeepsIdsAndSeats(RescheduleOne(fs, us[0]), us[1..]);
    }
  }

  lemma ReschedulePreservesWellFormed(m: MovieDoc, us: seq<Reschedule>)
    requires WellFormed(m)
    ensures WellFormed(m.(functions := RescheduleAll(m.functions, us)))
  {
    RescheduleKeepsIdsAndSeats(m.functions, us);
  }

  /** New showtimes with fresh, distinct ids keep a movie well formed. */
  lemma AddPreservesWellFormed(m: MovieDoc, ids: seq<FunctionId>, datetimes: seq<Timestamp>)
    requires WellFormed(m)
    requires |ids| == |datetimes|
    requires forall i, j :: 0 <= i < j < |ids| ==> ids[i] != ids[j]
    requires forall i, k :: 0 <= i < |ids| && 0 <= k < |m.functions| ==> ids[i] != m.functions[k].id
    ensures WellFormed(m.(functions := m.functions + NewShowtimes(ids, datetimes)))
  {
    LayoutDistinct();
    var fs := m.functions + NewShowtimes(ids, datetimes);
    var n := |m.functions|;
    forall i, j | 0 <= i < j < |fs| ensures fs[i].id != fs[j].id {
      if j >= n {
        assert fs[j].id == ids[j - n];
        if i >= n {
          assert fs[i].id == ids[i - n];
        } else {
          assert fs[i] == m.functions[i];
        }
      }
    }
  }

  class MovieModel {

    var movies: map<MovieId, MovieDoc>

    /** Each document is stored under its own id. */
    ghost predicate Valid()
      reads this
    {
      forall id :: id in movies ==> movies[id].id == id
    }

    constructor (initial: map<MovieId, MovieDoc>)
      requires forall id :: id in initial ==> initial[id].id == id
      ensures Valid() && movies == initial
    {
      movies := initial;
    }

    /** `addFunction`: for each input datetime, push a showtime with a fresh
        id and a generated seat map, then save; nothing for an unknown movie. */
    method AddFunction(movieId: MovieId, input: seq<Timestamp>, ids: seq<FunctionId>) returns (r: Option<MovieDoc>)
      requires Valid()
      requires |ids| == |input|
      modifies this
      ensures Valid()
      ensures r.None? <==> movieId !in old(movies)
      ensures r.None? ==> movies == old(movies)
      ensures r.Some? ==> r.value == old(movies)[movieId].(functions := old(movies)[movieId].functions + NewShowtimes(ids, input))
      ensures r.Some? ==> movies == old(movies)[movieId := r.value]
    {
      if movieId !in movies {
        return None;
      }
      var movie := movies[movieId];
      var functions := movie.functions;
      for i := 0 to |input|
        invariant functions == movie.functions + NewShowtimes(ids[..i], input[..i])
        invariant movies == old(movies)
      {
        var seats := GenerateSeats();
        assert NewShowtimes(ids[..i + 1], input[..i + 1]) == NewShowtimes(ids[..i], input[..i]) + [Function(ids[i], input[i], seats)];
        functions := functions + [Function(ids[i], input[i], seats)];
      }
      assert ids[..|input|] == ids && input[..|input|] == input;
      movie := movie.(functions := functions);
      movies := movies[movieId := movie];
      r := Some(movie);
    }

    /** `updateFunction`: nothing when there is no movie or no list of
        updates; otherwise the loop over `updates`, each moving the first
        showtime at its datetime, and a save of the document. */
    method UpdateFunction(movie: Option<MovieDoc>, updates: Option<seq<Reschedule>>) returns (r: Option<MovieDoc>)
      requires Valid()
      modifies this
      ensures Valid()
      ensures movie.None? || updates.None? ==> r.None? && movies == old(movies)
      ensures movie.Some? && updates.Some? ==>
        r == Some(movie.value.(functions := RescheduleAll(movie.value.functions, updates.value)))
      ensures r.Some? ==> movies == old(movies)[r.value.id := r.value]
    {
      if movie.None? || updates.None? {
        return None;
      }
      var us := updates.value;
      var functions := movie.value.functions;
      var i := 0;
      while i < |us|
        invariant 0 <= i <= |us|
        invariant RescheduleAll(movie.value.functions, us) == RescheduleAll(functions, us[i..])
        invariant movies == old(movies)
      {
        var u := us[i];
        assert us[i..][0] == u && us[i..][1..] == us[i + 1..];
        var target := FirstIndex(functions, ScheduledAt(u.datetime));
        if target.Some? && u.newDatetime.Some? {
          var k := target.value;
          functions := functions[k := functions[k].(schedule := u.newDatetime.value)];
        }
        i := i + 1;
      }
      var updated := movie.value.(functions := functions);
      movies := movies[updated.id := updated];
      r := Some(updated);
    }

    /** `update`: overwrite the given descriptive fields of a stored movie,
        then reschedule only when a non-empty `updates` list is given. */
    method Update(id: MovieId, fields: map<string, string>, updates: Option<seq<Reschedule>>) returns (r: Option<MovieDoc>)
      requires Valid()
      modifies this
      ensures Valid()
      ensures id !in old(movies) ==> r.None? && movies == old(movies)
      ensures id in old(movies) ==> r.Some? && movies == old(movies)[id := r.value]
      ensures r.Some? ==> r.value.id == id && r.value.details == old(movies)[id].details + fields
      ensures r.Some? && (updates.None? || updates.value == []) ==> r.value.functions == old(movies)[id].functions
      ensures r.Some? && updates.Some? && updates.value != [] ==>
        r.value.functions == RescheduleAll(old(movies)[id].functions, updates.value)
    {
      if id !in movies {
        return None;
      }
      var updated := movies[id].(details := movies[id].details + fields);
      movies := movies[id := updated];
      r := Some(updated);
      if updates.Some? && |updates.value| > 0 {
        r := UpdateFunction(r, updates);
      }
    }

    /** `deleteFunction`: drop the showtimes with that id and save; nothing
        for an unknown movie. */
    method DeleteFunction(movieId: MovieId, functionId: FunctionId) returns (r: Option<MovieDoc>)
      requires Valid()
      modifies this
      ensures Valid()
      ensures r.None? <==> movieId !in old(movies)
      ensures r.None? ==> movies == old(movies)
      ensures r.Some? ==> r.value == old(movies)[movieId].(functions := WithoutFunction(old(movies)[movieId].functions, functionId))
      ensures r.Some? ==> movies == old(movies)[movieId := r.value]
    {
      if movieId !in movies {
        return None;
      }
      var movie := movies[movieId];
      movie := movie.(functions := WithoutFunction(movie.functions, functionId));
      movies := movies[movieId := movie];
      r := Some(movie);
    }

    /** `reserveSeat`: one conditional update that takes every requested seat
        of the showtime when all are free, and returns the new document. */
    method ReserveSeat(movieId: MovieId, functionId: FunctionId, seats: seq<SeatNumber>) returns (r: Option<MovieDoc>)
      requires Valid()
      modifies this
      ensures Valid()
      ensures r == FlipIn(old(movies), movieId, functionId, seats, true)
      ensures movies == Saved(old(movies), movieId, r)
    {
      r := FlipIn(movies, movieId, functionId, seats, true);
      movies := Saved(movies, movieId, r);
    }

    /** The release update of `cancelReservation`: one conditional update that
        frees every listed seat of the showtime when all are taken. */
    method ReleaseSeats(movieId: MovieId, functionId: FunctionId, seats: seq<SeatNumber>) returns (r: Option<MovieDoc>)
      requires Valid()
      modifies this
      ensures Valid()
      ensures r == FlipIn(old(movies), movieId, functionId, seats, false)
      ensures movies == Saved(old(movies), movieId, r)
    {
      r := FlipIn(movies, movieId, functionId, seats, false);
      movies := Saved(movies, movieId, r);
    }
  }
}
