/** The older function model, whose showtimes carry a date and a time
    instead of one timestamp, over its own collection of movie documents. */
module Functions {

  import opened Wrappers
  import opened Seats
  import opened Registry

  datatype Slot = Slot(date: Timestamp, time: string)

  type Showing = Function<Slot>
  type SlotMovie = Movie<Slot>

  /** The fields an update request may carry; `Object.assign` copies exactly
      the ones present onto the showing. */
  datatype FunctionPatch = FunctionPatch(date: Option<Timestamp>, time: Option<string>, seats: Option<seq<Seat>>)

  function Assign(f: Showing, p: FunctionPatch): (g: Showing)
    ensures g.id == f.id
    ensures g.schedule.date == (if p.date.Some? then p.date.value else f.schedule.date)
    ensures g.schedule.time == (if p.time.Some? then p.time.value else f.schedule.time)
    ensures g.seats == (if p.seats.Some? then p.seats.value else f.seats)
  {
    var date := if p.date.Some? then p.date.value else f.schedule.date;
    var time := if p.time.Some? then p.time.value else f.schedule.time;
    var seats := if p.seats.Some? then p.seats.value else f.seats;
    Function(f.id, Slot(date, time), seats)
  }

  /** Applying the same update twice is applying it once. */
  lemma AssignIdempotent(f: Showing, p: FunctionPatch)
    ensures Assign(Assign(f, p), p) == Assign(f, p)
  {
  }

  /** An update carrying no field leaves the showing as it was. */
  lemma AssignNothing(f: Showing)
    ensures Assign(f, FunctionPatch(None, None, None)) == f
  {
  }

  /** The showtime list after `updateFunction`: nothing when no showing has
      the id, otherwise the first one with the id updated and the rest as they were. */
  function AssignFirst(fs: seq<Showing>, fid: FunctionId, p: FunctionPatch): (r: Option<seq<Showing>>)
    ensures r.None? <==> forall k :: 0 <= k < |fs| ==> fs[k].id != fid
    ensures forall k :: FirstWithId(fs, fid, k) ==> r.Some? && |r.value| == |fs| && r.value[k] == Assign(fs[k], p)
    ensures forall k, j :: FirstWithId(fs, fid, k) && 0 <= j < |fs| && j != k ==> r.Some? && r.value[j] == fs[j]
  {
    match FirstIndex(fs, HasId(fid))
    case None => None
    case Some(k) => Some(fs[k := Assign(fs[k], p)])
  }

  class FunctionModel {

    var movies: map<MovieId, SlotMovie>

    /** Each document is stored under its own id. */
    ghost predicate Valid()
      reads this
    {
      forall id :: id in movies ==> movies[id].id == id
    }

    constructor (initial: map<MovieId, SlotMovie>)
      requires forall id :: id in initial ==> initial[id].id == id
      ensures Valid() && movies == initial
    {
      movies := initial;
    }

    /** `addFunction`: push exactly one showing with the given date and time
        and a generated seat map; nothing for an unknown movie. */
    method AddFunction(movieId: MovieId, date: Timestamp, time: string, id: FunctionId) returns (r: Option<SlotMovie>)
      requires Valid()
      modifies this
      ensures Valid()
      ensures r.None? <==> movieId !in old(movies)
      ensures r.None? ==> movies == old(movies)
      ensures r.Some? ==> r.value == old(movies)[movieId].(functions := old(movies)[movieId].functions + [Function(id, Slot(date, time), Layout())])
      ensures r.Some? ==> movies == old(movies)[movieId := r.value]
    {
      if movieId !in movies {
        return None;
      }
      var movie := movies[movieId];
      var seats := GenerateSeats();
      movie := movie.(functions := movie.functions + [Function(id, Slot(date, time), seats)]);
      movies := movies[movieId := movie];
      r := Some(movie);
    }

    /** `updateFunction`: nothing when the movie or the showing is absent;
        otherwise copy the given fields onto the showing found by id and save. */
    method UpdateFunction(movieId: MovieId, functionId: FunctionId, input: FunctionPatch) returns (r: Option<SlotMovie>)
      requires Valid()
      modifies this
      ensures Valid()
      ensures r.None? <==> movieId !in old(movies) || AssignFirst(old(movies)[movieId].functions, functionId, input).None?
      ensures r.None? ==> movies == old(movies)
      ensures r.Some? ==> r.value == old(movies)[movieId].(functions := AssignFirst(old(movies)[movieId].functions, functionId, input).value)
      ensures r.Some? ==> movies == old(movies)[movieId := r.value]
    {
      if movieId !in movies {
        return None;
      }
      var movie := movies[movieId];
      var found := AssignFirst(movie.functions, functionId, input);
      if found.None? {
        return None;
      }
      movie := movie.(functions := found.value);
      movies := movies[movieId := movie];
      r := Some(movie);
    }

    /** `deleteFunction`: keep the showings whose id differs, in order, and save. */
    method DeleteFunction(movieId: MovieId, functionId: FunctionId) returns (r: Option<SlotMovie>)
      requires Valid()
      modifies this
      ensures Valid()
      ensures r.None? <==> movieId !in old(movies)
      ensures r.None? ==> movies == old(movies)
      ensures r.Some? ==> r.value == old(movies)[movieId].(functions := WithoutFunction(old(movies)[movieId].functions, functionId))
      ensures r.Some? ==> movies == old(movies)[movieId := r.value]
    {
      if movieId !in movies {
        return None;
      }
      var movie := movies[movieId];
      movie := movie.(functions := WithoutFunction(movie.functions, functionId));
      movies := movies[movieId := movie];
      r := Some(movie);
    }
  }
}
