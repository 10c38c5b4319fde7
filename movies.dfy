/**
 * The movie catalogue: the listing of active movies newest first, one movie
 * with its coming showtimes, creation with validation of the fields and the
 * genres, update that replaces the genre links, and the soft delete.
 */
module Movies {
  import opened Results
  import opened Store
  import opened Ordering

  const NoMovies := "Không có phim nào trong hệ thống"
  const MovieNotFound := "Không tìm thấy phim"
  const FindAllFailed := "Lỗi khi lấy danh sách phim"
  const FindOneFailed := "Lỗi khi lấy thông tin phim"
  const MissingFields := "Thiếu thông tin bắt buộc: title, duration, releaseDate, genreIds"
  const UnknownGenre := "Một số genre không tồn tại trong hệ thống"
  const UpdateFailed := "Lỗi khi cập nhật phim"
  const DeleteFailed := "Lỗi khi xóa phim"
  const Deleted := "Xóa phim thành công"

  /** Minutes in a day: a show date's day number times this is its midnight. */
  const MinutesPerDay := 24 * 60

  /**
   * The fields a caller sends; None is an absent field. Whether a release
   * date text makes a valid `new Date(…)` is the `validDate` parameter of
   * the writes; an absent one never does.
   */
  datatype MovieInput = MovieInput(
    title: Option<string>, description: Option<string>, duration: Option<int>, releaseDate: Option<string>,
    poster: Option<string>, trailer: Option<string>, director: Option<string>, cast: Option<string>,
    language: Option<string>, subtitle: Option<string>, genreIds: Option<seq<int>>)

  datatype MovieView = MovieView(
    id: int, title: string, description: Option<string>, duration: int, releaseDate: string,
    poster: Option<string>, trailer: Option<string>, director: Option<string>, cast: Option<string>,
    language: Option<string>, subtitle: Option<string>, genres: seq<string>)

  /** The genre ids linked to the movie, in link order. */
  function LinksOf(links: seq<MovieGenre>, movieId: int): seq<int>
  {
    if |links| == 0 then []
    else
      var last := links[|links| - 1];
      LinksOf(links[..|links| - 1], movieId) + (if last.movieId == movieId then [last.genreId] else [])
  }

  /** The names of the movie's genres, in link order. */
  function GenreNames(links: seq<MovieGenre>, genres: map<int, Genre>, movieId: int): seq<string>
  {
    if |links| == 0 then []
    else
      var last := links[|links| - 1];
      GenreNames(links[..|links| - 1], genres, movieId)
        + (if last.movieId == movieId && last.genreId in genres then [genres[last.genreId].name] else [])
  }

  /**
   * Every genre the movie links to exists. The include of the required
   * `genre` relation fails the whole query when one does not.
   */
  predicate GenresResolve(t: Tables, id: int)
  {
    forall g :: g in LinksOf(t.movieGenres, id) ==> g in t.genres
  }

  /** When the links resolve, the genre names are the linked genres' names, one per link. */
  lemma {:induction false} GenreNamesOfResolved(links: seq<MovieGenre>, genres: map<int, Genre>, movieId: int)
    requires forall g :: g in LinksOf(links, movieId) ==> g in genres
    ensures |GenreNames(links, genres, movieId)| == |LinksOf(links, movieId)|
    ensures forall k :: 0 <= k < |LinksOf(links, movieId)| ==>
              LinksOf(links, movieId)[k] in genres
              && GenreNames(links, genres, movieId)[k] == genres[LinksOf(links, movieId)[k]].name
    decreases |links|
  {
    if |links| > 0 {
      var front := links[..|links| - 1];
      GenreNamesOfResolved(front, genres, movieId);
    }
  }

  function ViewOf(t: Tables, id: int, m: Movie): MovieView
  {
    MovieView(id, m.title, m.description, m.duration, m.releaseDate, m.poster, m.trailer, m.director,
              m.cast, m.language, m.subtitle, GenreNames(t.movieGenres, t.genres, id))
  }

  predicate Listed(t: Tables, id: int)
  {
    id in t.movies && t.movies[id].status == MovieActive
  }

  datatype MovieRecord = MovieRecord(id: int, movie: Movie)

  /** `orderBy: { created_at: 'desc' }`, ties broken by id. */
  predicate NewestFirst(a: MovieRecord, b: MovieRecord)
  {
    a.movie.createdAt > b.movie.createdAt || (a.movie.createdAt == b.movie.createdAt && a.id <= b.id)
  }

  lemma NewestFirstIsTotalPreorder()
    ensures TotalPreorder(NewestFirst)
  {
  }

  function ActiveMovies(t: Tables): set<MovieRecord>
  {
    set id | id in t.movies && t.movies[id].status == MovieActive :: MovieRecord(id, t.movies[id])
  }

  /** The listed movies resolve their genres exactly when the ordered ones do. */
  lemma ListedResolve(t: Tables, ordered: seq<MovieRecord>)
    requires forall i :: 0 <= i < |ordered| ==> ordered[i] in ActiveMovies(t)
    requires forall x :: x in ActiveMovies(t) ==> x in ordered
    ensures (forall k :: 0 <= k < |ordered| ==> GenresResolve(t, ordered[k].id))
        <==> (forall id :: Listed(t, id) ==> GenresResolve(t, id))
  {
    if forall k :: 0 <= k < |ordered| ==> GenresResolve(t, ordered[k].id) {
      forall id | Listed(t, id)
        ensures GenresResolve(t, id)
      {
        assert MovieRecord(id, t.movies[id]) in ActiveMovies(t);
        var k :| 0 <= k < |ordered| && ordered[k] == MovieRecord(id, t.movies[id]);
      }
    } else {
      var k :| 0 <= k < |ordered| && !GenresResolve(t, ordered[k].id);
      assert ordered[k] in ActiveMovies(t);
      assert Listed(t, ordered[k].id);
    }
  }

  /** The views show every listed movie once, as stored, newest first. */
  ghost predicate ListsActive(t: Tables, views: seq<MovieView>)
  {
    && (forall i :: 0 <= i < |views| ==>
          Listed(t, views[i].id) && views[i] == ViewOf(t, views[i].id, t.movies[views[i].id]))
    && (forall id :: Listed(t, id) ==> ViewOf(t, id, t.movies[id]) in views)
    && (forall i, j :: 0 <= i < j < |views| ==> views[i].id != views[j].id)
    && (forall i, j :: 0 <= i < j < |views| ==>
          t.movies[views[i].id].createdAt >= t.movies[views[j].id].createdAt)
  }

  /** The ordered active movies are empty exactly when no movie is listed. */
  lemma NoneListed(t: Tables, ordered: seq<MovieRecord>)
    requires forall i :: 0 <= i < |ordered| ==> ordered[i] in ActiveMovies(t)
    requires forall x :: x in ActiveMovies(t) ==> x in ordered
    ensures |ordered| == 0 <==> forall id :: !Listed(t, id)
  {
    if |ordered| > 0 {
      assert ordered[0] in ActiveMovies(t);
      assert Listed(t, ordered[0].id);
    }
    forall id | Listed(t, id)
      ensures |ordered| > 0
    {
      assert MovieRecord(id, t.movies[id]) in ActiveMovies(t);
    }
  }

  /**
   * `findAll`: the active movies, each once, newest first; NotFound when
   * there is none; a failure when a listed movie links to a missing genre.
   */
  method FindAll(t: Tables) returns (result: Result<seq<MovieView>>)
    ensures result.Ok? <==> (exists id :: Listed(t, id)) && (forall id :: Listed(t, id) ==> GenresResolve(t, id))
    ensures (forall id :: !Listed(t, id)) ==> result == Err(NotFound(NoMovies))
    ensures (exists id :: Listed(t, id) && !GenresResolve(t, id)) ==> result == Err(Failure(FindAllFailed))
    ensures result.Ok? ==> ListsActive(t, result.value)
  {
    NewestFirstIsTotalPreorder();
    var ordered := OrderBy(ActiveMovies(t), NewestFirst);
    ListedResolve(t, ordered);
    NoneListed(t, ordered);
    var resolved := forall k :: 0 <= k < |ordered| ==> GenresResolve(t, ordered[k].id);
    if !resolved {
      return Err(Failure(FindAllFailed));
    }
    if |ordered| == 0 {
      return Err(NotFound(NoMovies));
    }
    var views := MovieViews(t, ordered);
    ViewsOfOrdered(t, ordered);
    return Ok(views);
  }

  /** `movies.map(…)`: one view per movie row, in order. */
  function MovieViews(t: Tables, ordered: seq<MovieRecord>): (r: seq<MovieView>)
    ensures |r| == |ordered|
    ensures forall k :: 0 <= k < |ordered| ==> r[k] == ViewOf(t, ordered[k].id, ordered[k].movie)
  {
    seq(|ordered|, k requires 0 <= k < |ordered| => ViewOf(t, ordered[k].id, ordered[k].movie))
  }

  /** The views of the active movies newest first show each listed movie once, newest first. */
  lemma ViewsOfOrdered(t: Tables, ordered: seq<MovieRecord>)
    requires forall i :: 0 <= i < |ordered| ==> ordered[i] in ActiveMovies(t)
    requires forall x :: x in ActiveMovies(t) ==> x in ordered
    requires forall i, j :: 0 <= i < j < |ordered| ==> ordered[i] != ordered[j]
    requires SortedBy(ordered, NewestFirst)
    ensures ListsActive(t, MovieViews(t, ordered))
  {
    var views := MovieViews(t, ordered);
    forall id | Listed(t, id)
      ensures ViewOf(t, id, t.movies[id]) in views
    {
      assert MovieRecord(id, t.movies[id]) in ActiveMovies(t);
      var k :| 0 <= k < |ordered| && ordered[k] == MovieRecord(id, t.movies[id]);
      assert views[k] == ViewOf(t, id, t.movies[id]);
    }
    forall i, j | 0 <= i < j < |views|
      ensures views[i].id != views[j].id
      ensures t.movies[views[i].id].createdAt >= t.movies[views[j].id].createdAt
    {
      assert ordered[i] in ActiveMovies(t) && ordered[j] in ActiveMovies(t);
      assert NewestFirst(ordered[i], ordered[j]);
    }
    forall i | 0 <= i < |views|
      ensures Listed(t, views[i].id) && views[i] == ViewOf(t, views[i].id, t.movies[views[i].id])
    {
      assert ordered[i] in ActiveMovies(t);
    }
  }

  /** A coming showtime as `findOne` shows it. */
  datatype ShowtimeSummary = ShowtimeSummary(id: int, showDate: int, startTime: int, endTime: int,
                                             basePrice: int, availableSeats: int, roomId: int, roomName: string)

  datatype MovieDetail = MovieDetail(movie: MovieView, showtimes: seq<ShowtimeSummary>)

  /**
   * The showtimes `findOne` includes: the movie's 'active' ones whose show
   * date (its midnight) is not before `now` (a timestamp in minutes).
   */
  predicate Upcoming(s: Showtime, movieId: int, now: int)
  {
    s.movieId == movieId && s.status == "active" && s.showDate * MinutesPerDay >= now
  }

  /** A show date's midnight lies before any moment of that day but its first, so today's showtimes are left out. */
  lemma TodayIsNotUpcoming(s: Showtime, movieId: int, now: int)
    requires s.showDate == now / MinutesPerDay && now % MinutesPerDay != 0
    ensures !Upcoming(s, movieId, now)
  {
  }

  function UpcomingIds(t: Tables, movieId: int, now: int): set<int>
  {
    set k | k in t.showtimes && Upcoming(t.showtimes[k], movieId, now)
  }

  /** Showtime rows listed in id order (the include has no `orderBy`). */
  predicate ById(a: int, b: int)
  {
    a <= b
  }

  lemma ByIdIsTotalPreorder()
    ensures TotalPreorder(ById)
  {
  }

  /**
   * `findOne(id)`: NotFound for a missing movie; a failure when it links to a
   * missing genre or a coming showtime to a missing room; otherwise the movie
   * with its coming active showtimes, each once, in id order. `now` is
   * `new Date()`.
   */
  method FindOne(t: Tables, id: int, now: int) returns (result: Result<MovieDetail>)
    ensures id !in t.movies ==> result == Err(NotFound(MovieNotFound))
    ensures result.Ok? ==>
      && id in t.movies
      && result.value.movie == ViewOf(t, id, t.movies[id])
      && (forall i :: 0 <= i < |result.value.showtimes| ==>
            var s := result.value.showtimes[i];
            && s.id in t.showtimes && Upcoming(t.showtimes[s.id], id, now)
            && t.showtimes[s.id].roomId == s.roomId && s.roomId in t.rooms && t.rooms[s.roomId].name == s.roomName
            && s.showDate == t.showtimes[s.id].showDate && s.startTime == t.showtimes[s.id].startTime
            && s.endTime == t.showtimes[s.id].endTime && s.basePrice == t.showtimes[s.id].basePrice
            && s.availableSeats == t.showtimes[s.id].availableSeats)
      && (forall k :: k in t.showtimes && Upcoming(t.showtimes[k], id, now) ==>
            exists i :: 0 <= i < |result.value.showtimes| && result.value.showtimes[i].id == k)
      && (forall i, j :: 0 <= i < j < |result.value.showtimes| ==>
            result.value.showtimes[i].id < result.value.showtimes[j].id)
    ensures id in t.movies && result.Err? ==> result == Err(Failure(FindOneFailed))
    ensures result.Ok? ==> GenresResolve(t, id)
    ensures (id in t.movies && GenresResolve(t, id)
             && forall k :: k in t.showtimes && Upcoming(t.showtimes[k], id, now) ==> t.showtimes[k].roomId in t.rooms)
            ==> result.Ok?
  {
    if id !in t.movies {
      return Err(NotFound(MovieNotFound));
    }
    if !GenresResolve(t, id) {
      return Err(Failure(FindOneFailed));
    }
    ByIdIsTotalPreorder();
    var ids := OrderBy(UpcomingIds(t, id, now), ById);
    var shown: seq<ShowtimeSummary> := [];
    var i := 0;
    while i < |ids|
      invariant 0 <= i <= |ids|
      invariant |shown| == i
      invariant forall j :: 0 <= j < i ==>
        && ids[j] in t.showtimes && t.showtimes[ids[j]].roomId in t.rooms
        && var s := t.showtimes[ids[j]];
        && shown[j] == ShowtimeSummary(ids[j], s.showDate, s.startTime, s.endTime, s.basePrice,
                                       s.availableSeats, s.roomId, t.rooms[s.roomId].name)
    {
      assert ids[i] in UpcomingIds(t, id, now);
      var s := t.showtimes[ids[i]];
      if s.roomId !in t.rooms {
        ghost var k := ids[i];
        assert k in t.showtimes && Upcoming(t.showtimes[k], id, now) && t.showtimes[k].roomId !in t.rooms;
        return Err(Failure(FindOneFailed));
      }
      shown := shown + [ShowtimeSummary(ids[i], s.showDate, s.startTime, s.endTime, s.basePrice,
                                        s.availableSeats, s.roomId, t.rooms[s.roomId].name)];
      i := i + 1;
    }
    forall j | 0 <= j < |shown|
      ensures Upcoming(t.showtimes[shown[j].id], id, now)
    {
      assert ids[j] in UpcomingIds(t, id, now);
    }
    forall k | k in t.showtimes && Upcoming(t.showtimes[k], id, now)
      ensures exists j :: 0 <= j < |shown| && shown[j].id == k
    {
      assert k in UpcomingIds(t, id, now);
      var j :| 0 <= j < |ids| && ids[j] == k;
      assert shown[j].id == k;
    }
    forall a, b | 0 <= a < b < |shown|
      ensures shown[a].id < shown[b].id
    {
      assert ById(ids[a], ids[b]) && ids[a] != ids[b];
    }
    return Ok(MovieDetail(ViewOf(t, id, t.movies[id]), shown));
  }

  // ----- Writes -----

  /** `!title || !duration || !releaseDate || !genreIds?.length`. */
  predicate MissingRequired(input: MovieInput)
  {
    || input.title.None? || input.title.value == ""
    || input.duration.None? || input.duration.value == 0
    || input.releaseDate.None? || input.releaseDate.value == ""
    || input.genreIds.None? || |input.genreIds.value| == 0
  }

  predicate Distinct(s: seq<int>)
  {
    forall i, j :: 0 <= i < j < |s| ==> s[i] != s[j]
  }

  /** The genres `findMany({ where: { genre_id: { in: genreIds } } })` finds. */
  function MatchedGenres(genreIds: seq<int>, genres: map<int, Genre>): set<int>
  {
    set g | g in genreIds && g in genres
  }

  lemma {:induction false} ElemsCard(s: seq<int>)
    ensures |Elems(s)| <= |s|
    ensures |Elems(s)| == |s| <==> Distinct(s)
    decreases |s|
  {
    if |s| > 0 {
      var front := s[..|s| - 1];
      var x := s[|s| - 1];
      ElemsCard(front);
      assert s == front + [x];
      assert Elems(s) == Elems(front) + {x};
      DistinctSnoc(front, x);
      if x in front {
        assert Elems(s) == Elems(front);
      }
    }
  }

  /** Appending keeps a list distinct exactly when the new element is not in it. */
  lemma DistinctSnoc(front: seq<int>, x: int)
    ensures Distinct(front + [x]) <==> Distinct(front) && x !in front
  {
    var s := front + [x];
    if Distinct(s) {
      forall i, j | 0 <= i < j < |front|
        ensures front[i] != front[j]
      {
        assert s[i] == front[i] && s[j] == front[j];
      }
      forall k | 0 <= k < |front|
        ensures front[k] != x
      {
        assert s[k] == front[k] && s[|front|] == x;
      }
    }
    if Distinct(front) && x !in front {
      forall i, j | 0 <= i < j < |s|
        ensures s[i] != s[j]
      {
        assert s[i] == front[i];
        if j < |front| {
          assert s[j] == front[j];
        }
      }
    }
  }

  /**
   * The count check passes exactly when every id names a genre and no id is
   * repeated; a repeated id fails it even though its genre exists.
   */
  lemma GenreCountCheck(genreIds: seq<int>, genres: map<int, Genre>)
    ensures |MatchedGenres(genreIds, genres)| == |genreIds|
        <==> Distinct(genreIds) && forall g :: g in genreIds ==> g in genres
  {
    var m := MatchedGenres(genreIds, genres);
    var e := Elems(genreIds);
    ElemsCard(genreIds);
    assert m <= e;
    assert |e| == |m| + |e - m| by {
      assert e == m + (e - m);
      assert m * (e - m) == {};
    }
    if |m| == |genreIds| {
      assert |e - m| == 0;
      assert e - m == {};
      forall g | g in genreIds
        ensures g in genres
      {
        assert g in e;
      }
    }
    if Distinct(genreIds) && forall g :: g in genreIds ==> g in genres {
      assert m == e;
    }
  }

  /** The links `moviegenre: { create: genreIds.map(…) }` adds, in order. */
  function NewLinks(movieId: int, genreIds: seq<int>): (r: seq<MovieGenre>)
    ensures |r| == |genreIds|
    ensures forall k :: 0 <= k < |r| ==> r[k] == MovieGenre(movieId, genreIds[k])
  {
    seq(|genreIds|, k requires 0 <= k < |genreIds| => MovieGenre(movieId, genreIds[k]))
  }

  /** `moviegenre.deleteMany({ where: { movie_id } })`. */
  function WithoutLinks(links: seq<MovieGenre>, movieId: int): (r: seq<MovieGenre>)
  {
    if |links| == 0 then []
    else
      var last := links[|links| - 1];
      WithoutLinks(links[..|links| - 1], movieId) + (if last.movieId == movieId then [] else [last])
  }

  datatype CreateOutcome = CreateOutcome(tables: Tables, result: Result<MovieView>)

  /**
   * `create`: the required fields are checked before any lookup, then the
   * genres are counted; the movie is inserted under the next id with one
   * link per genre id, taking `now` as its creation time; an invalid release
   * date makes the insert fail. Every error carries its message.
   */
  function CreateStep(t: Tables, input: MovieInput, validDate: string -> bool, now: int): CreateOutcome
  {
    if MissingRequired(input) then CreateOutcome(t, Err(Failure(MissingFields)))
    else if |MatchedGenres(input.genreIds.value, t.genres)| != |input.genreIds.value| then
      CreateOutcome(t, Err(Failure(UnknownGenre)))
    else if !validDate(input.releaseDate.value) then CreateOutcome(t, Err(Failure(InvalidDate)))
    else
      var id := t.nextMovieId;
      var m := Movie(input.title.value, input.description, input.duration.value, input.releaseDate.value,
                     input.poster, input.trailer, input.director, input.cast, input.language, input.subtitle,
                     MovieActive, now);
      var t' := t.(movies := t.movies[id := m], movieGenres := t.movieGenres + NewLinks(id, input.genreIds.value),
                   nextMovieId := id + 1);
      CreateOutcome(t', Ok(ViewOf(t', id, m)))
  }

  method CreateMovie(db: Database, input: MovieInput, validDate: string -> bool, now: int)
    returns (result: Result<MovieView>)
    modifies db
    ensures db.tables == CreateStep(old(db.tables), input, validDate, now).tables
    ensures result == CreateStep(old(db.tables), input, validDate, now).result
  {
    var t := db.tables;
    if MissingRequired(input) {
      return Err(Failure(MissingFields));
    }
    var genreIds := input.genreIds.value;
    if |MatchedGenres(genreIds, t.genres)| != |genreIds| {
      return Err(Failure(UnknownGenre));
    }
    if !validDate(input.releaseDate.value) {
      return Err(Failure(InvalidDate));
    }
    var id := t.nextMovieId;
    var m := Movie(input.title.value, input.description, input.duration.value, input.releaseDate.value,
                   input.poster, input.trailer, input.director, input.cast, input.language, input.subtitle,
                   MovieActive, now);
    db.tables := t.(movies := t.movies[id := m], movieGenres := t.movieGenres + NewLinks(id, genreIds),
                    nextMovieId := id + 1);
    result := Ok(ViewOf(db.tables, id, m));
  }

  lemma {:induction false} LinksOfAppend(a: seq<MovieGenre>, b: seq<MovieGenre>, movieId: int)
    ensures LinksOf(a + b, movieId) == LinksOf(a, movieId) + LinksOf(b, movieId)
    decreases |b|
  {
    if |b| > 0 {
      assert (a + b)[..|a + b| - 1] == a + b[..|b| - 1];
      LinksOfAppend(a, b[..|b| - 1], movieId);
    } else {
      assert a + b == a;
    }
  }

  lemma {:induction false} LinksOfNewLinks(id: int, genreIds: seq<int>, movieId: int)
    ensures LinksOf(NewLinks(id, genreIds), movieId) == if movieId == id then genreIds else []
    decreases |genreIds|
  {
    if |genreIds| > 0 {
      var n := NewLinks(id, genreIds);
      var front := genreIds[..|genreIds| - 1];
      var last := genreIds[|genreIds| - 1];
      assert n[..|n| - 1] == NewLinks(id, front);
      assert n[|n| - 1] == MovieGenre(id, last);
      assert LinksOf(n, movieId) == LinksOf(NewLinks(id, front), movieId) + (if id == movieId then [last] else []);
      LinksOfNewLinks(id, front, movieId);
      assert front + [last] == genreIds;
    }
  }

  lemma {:induction false} LinksOfWithout(links: seq<MovieGenre>, id: int, movieId: int)
    ensures LinksOf(WithoutLinks(links, id), movieId) == if movieId == id then [] else LinksOf(links, movieId)
    decreases |links|
  {
    if |links| > 0 {
      var front := links[..|links| - 1];
      var last := links[|links| - 1];
      LinksOfWithout(front, id, movieId);
      LinksOfAppend(WithoutLinks(front, id), if last.movieId == id then [] else [last], movieId);
      if last.movieId != id {
        assert [last][..0] == [];
      }
    }
  }

  /**
   * A created movie is active, listed under the next id, and linked to
   * exactly the given genres in their order; a missing required field is
   * refused before the genres are looked at.
   */
  lemma CreateEffect(t: Tables, input: MovieInput, validDate: string -> bool, now: int)
    ensures CreateStep(t, input, validDate, now).result.Err? ==> CreateStep(t, input, validDate, now).tables == t
    ensures MissingRequired(input) ==>
              CreateStep(t, input, validDate, now) == CreateOutcome(t, Err(Failure("Thiếu thông tin bắt buộc: title, duration, releaseDate, genreIds")))
    ensures !MissingRequired(input) ==>
              (CreateStep(t, input, validDate, now).result.Ok? <==>
                 && Distinct(input.genreIds.value)
                 && (forall g :: g in input.genreIds.value ==> g in t.genres)
                 && validDate(input.releaseDate.value))
    ensures CreateStep(t, input, validDate, now).result.Ok? ==>
      var r := CreateStep(t, input, validDate, now).tables;
      var id := t.nextMovieId;
      && Listed(r, id)
      && r.movies[id].createdAt == now && r.movies[id].title == input.title.value
      && LinksOf(r.movieGenres, id) == LinksOf(t.movieGenres, id) + input.genreIds.value
      && (forall m :: m != id ==> LinksOf(r.movieGenres, m) == LinksOf(t.movieGenres, m))
      && CreateStep(t, input, validDate, now).result.value.id == id
  {
    if !MissingRequired(input) {
      GenreCountCheck(input.genreIds.value, t.genres);
      var id := t.nextMovieId;
      forall m
        ensures LinksOf(t.movieGenres + NewLinks(id, input.genreIds.value), m)
             == LinksOf(t.movieGenres, m) + (if m == id then input.genreIds.value else [])
      {
        LinksOfAppend(t.movieGenres, NewLinks(id, input.genreIds.value), m);
        LinksOfNewLinks(id, input.genreIds.value, m);
      }
    }
  }

  /** Every genre link names a movie id the sequence has already handed out. */
  predicate LinksAhead(t: Tables)
  {
    forall k :: 0 <= k < |t.movieGenres| ==> t.movieGenres[k].movieId < t.nextMovieId
  }

  /** A movie id no link names has no genres. */
  lemma {:induction false} LinksOfUnlinked(links: seq<MovieGenre>, movieId: int)
    requires forall k :: 0 <= k < |links| ==> links[k].movieId != movieId
    ensures LinksOf(links, movieId) == []
    decreases |links|
  {
    if |links| > 0 {
      LinksOfUnlinked(links[..|links| - 1], movieId);
    }
  }

  /**
   * With the id sequence ahead of every movie and every link, a created movie
   * takes a fresh id and is linked to exactly the given genres, in order; the
   * sequence stays ahead.
   */
  lemma CreateLinksExactly(t: Tables, input: MovieInput, validDate: string -> bool, now: int)
    requires SequencesAhead(t) && LinksAhead(t)
    ensures var o := CreateStep(t, input, validDate, now);
      && (o.result.Ok? ==>
            && t.nextMovieId !in t.movies
            && LinksOf(o.tables.movieGenres, t.nextMovieId) == input.genreIds.value)
      && SequencesAhead(o.tables) && LinksAhead(o.tables)
  {
    if !MissingRequired(input) && |MatchedGenres(input.genreIds.value, t.genres)| == |input.genreIds.value|
       && validDate(input.releaseDate.value) {
      var m := Movie(input.title.value, input.description, input.duration.value, input.releaseDate.value,
                     input.poster, input.trailer, input.director, input.cast, input.language, input.subtitle,
                     MovieActive, now);
      InsertKeepsAhead(t, m, input.genreIds.value);
    }
  }

  /** Inserting a movie under the next id with its links keeps the sequence ahead and links exactly those genres. */
  lemma InsertKeepsAhead(t: Tables, m: Movie, genreIds: seq<int>)
    requires SequencesAhead(t) && LinksAhead(t)
    ensures var id := t.nextMovieId;
      var r := t.(movies := t.movies[id := m], movieGenres := t.movieGenres + NewLinks(id, genreIds),
                  nextMovieId := id + 1);
      && id !in t.movies
      && LinksOf(r.movieGenres, id) == genreIds
      && SequencesAhead(r) && LinksAhead(r)
  {
    AppendedLinks(t.movieGenres, t.nextMovieId, genreIds);
  }

  /** Links below `id`, followed by the new links of `id`: `id` is linked to exactly the new genres, and all stay below `id + 1`. */
  lemma AppendedLinks(links: seq<MovieGenre>, id: int, genreIds: seq<int>)
    requires forall k :: 0 <= k < |links| ==> links[k].movieId < id
    ensures LinksOf(links + NewLinks(id, genreIds), id) == genreIds
    ensures forall k :: 0 <= k < |links + NewLinks(id, genreIds)| ==> (links + NewLinks(id, genreIds))[k].movieId < id + 1
  {
    var added := NewLinks(id, genreIds);
    LinksOfUnlinked(links, id);
    LinksOfAppend(links, added, id);
    LinksOfNewLinks(id, genreIds, id);
    assert [] + genreIds == genreIds;
    forall k | 0 <= k < |links + added|
      ensures (links + added)[k].movieId < id + 1
    {
      if k >= |links| {
        assert (links + added)[k] == added[k - |links|];
      } else {
        assert (links + added)[k] == links[k];
      }
    }
  }

  /** A field left out of an update keeps its value. */
  function Keep<T>(v: Option<T>, current: T): T
  {
    if v.Some? then v.value else current
  }

  function KeepOptional(v: Option<string>, current: Option<string>): Option<string>
  {
    if v.Some? then v else current
  }

  datatype UpdateOutcome = UpdateOutcome(tables: Tables, result: Result<Movie>)

  /**
   * `update(id, input)`: the movie's genre links are deleted first, on their
   * own; then the row is updated and the new links created in one write,
   * which fails for a missing movie, an absent or invalid release date,
   * absent genre ids or an unknown genre. A failure leaves the links deleted;
   * an absent field other than these keeps its value.
   */
  function UpdateStep(t: Tables, id: int, input: MovieInput, validDate: string -> bool): UpdateOutcome
  {
    var cleared := t.(movieGenres := WithoutLinks(t.movieGenres, id));
    if id !in t.movies || input.releaseDate.None? || !validDate(input.releaseDate.value) || input.genreIds.None?
       || exists g :: g in input.genreIds.value && g !in t.genres then
      UpdateOutcome(cleared, Err(Failure(UpdateFailed)))
    else
      var m := t.movies[id];
      var m' := Movie(Keep(input.title, m.title), KeepOptional(input.description, m.description),
                      Keep(input.duration, m.duration), input.releaseDate.value,
                      KeepOptional(input.poster, m.poster), KeepOptional(input.trailer, m.trailer),
                      KeepOptional(input.director, m.director), KeepOptional(input.cast, m.cast),
                      KeepOptional(input.language, m.language), KeepOptional(input.subtitle, m.subtitle),
                      m.status, m.createdAt);
      UpdateOutcome(cleared.(movies := t.movies[id := m'],
                             movieGenres := cleared.movieGenres + NewLinks(id, input.genreIds.value)),
                    Ok(m'))
  }

  method UpdateMovie(db: Database, id: int, input: MovieInput, validDate: string -> bool) returns (result: Result<Movie>)
    modifies db
    ensures db.tables == UpdateStep(old(db.tables), id, input, validDate).tables
    ensures result == UpdateStep(old(db.tables), id, input, validDate).result
  {
    var t := db.tables;
    db.tables := t.(movieGenres := WithoutLinks(t.movieGenres, id));
    if id !in t.movies || input.releaseDate.None? || !validDate(input.releaseDate.value) || input.genreIds.None?
       || exists g :: g in input.genreIds.value && g !in t.genres {
      return Err(Failure(UpdateFailed));
    }
    var m := t.movies[id];
    var m' := Movie(Keep(input.title, m.title), KeepOptional(input.description, m.description),
                    Keep(input.duration, m.duration), input.releaseDate.value,
                    KeepOptional(input.poster, m.poster), KeepOptional(input.trailer, m.trailer),
                    KeepOptional(input.director, m.director), KeepOptional(input.cast, m.cast),
                    KeepOptional(input.language, m.language), KeepOptional(input.subtitle, m.subtitle),
                    m.status, m.createdAt);
    db.tables := db.tables.(movies := t.movies[id := m'],
                            movieGenres := db.tables.movieGenres + NewLinks(id, input.genreIds.value));
    result := Ok(m');
  }

  /**
   * After a successful update the movie's links are exactly the new genre
   * ids, in order; after a failed one it has none left. Other movies' links
   * never change.
   */
  lemma UpdateReplacesLinks(t: Tables, id: int, input: MovieInput, validDate: string -> bool)
    ensures var o := UpdateStep(t, id, input, validDate);
      && (o.result.Ok? ==> LinksOf(o.tables.movieGenres, id) == input.genreIds.value)
      && (o.result.Err? ==> LinksOf(o.tables.movieGenres, id) == [] && o.tables.movies == t.movies)
      && (forall m :: m != id ==> LinksOf(o.tables.movieGenres, m) == LinksOf(t.movieGenres, m))
  {
    var cleared := WithoutLinks(t.movieGenres, id);
    LinksOfWithout(t.movieGenres, id, id);
    forall m | m != id
      ensures LinksOf(UpdateStep(t, id, input, validDate).tables.movieGenres, m) == LinksOf(t.movieGenres, m)
    {
      LinksOfWithout(t.movieGenres, id, m);
      if UpdateStep(t, id, input, validDate).result.Ok? {
        LinksOfAppend(cleared, NewLinks(id, input.genreIds.value), m);
        LinksOfNewLinks(id, input.genreIds.value, m);
      }
    }
    if UpdateStep(t, id, input, validDate).result.Ok? {
      LinksOfAppend(cleared, NewLinks(id, input.genreIds.value), id);
      LinksOfNewLinks(id, input.genreIds.value, id);
    }
  }

  /** An update adds links only for a stored movie, so every link stays below the id sequence. */
  lemma UpdateKeepsLinksAhead(t: Tables, id: int, input: MovieInput, validDate: string -> bool)
    requires SequencesAhead(t) && LinksAhead(t)
    ensures LinksAhead(UpdateStep(t, id, input, validDate).tables)
  {
    var o := UpdateStep(t, id, input, validDate);
    var cleared := WithoutLinks(t.movieGenres, id);
    WithoutLinksBelow(t.movieGenres, id, t.nextMovieId);
    if o.result.Ok? {
      var added: seq<MovieGenre> := NewLinks(id, input.genreIds.value);
      assert o.tables.movieGenres == cleared + added;
      forall k | 0 <= k < |cleared + added|
        ensures (cleared + added)[k].movieId < t.nextMovieId
      {
        if k >= |cleared| {
          assert (cleared + added)[k] == added[k - |cleared|];
        } else {
          assert (cleared + added)[k] == cleared[k];
        }
      }
    }
  }

  /** Deleting links keeps every remaining link below a bound the old links were below. */
  lemma {:induction false} WithoutLinksBelow(links: seq<MovieGenre>, id: int, bound: int)
    requires forall k :: 0 <= k < |links| ==> links[k].movieId < bound
    ensures forall k :: 0 <= k < |WithoutLinks(links, id)| ==> WithoutLinks(links, id)[k].movieId < bound
    decreases |links|
  {
    if |links| > 0 {
      var front := links[..|links| - 1];
      var last := links[|links| - 1];
      WithoutLinksBelow(front, id, bound);
      var rest := WithoutLinks(front, id);
      var tail: seq<MovieGenre> := if last.movieId == id then [] else [last];
      assert WithoutLinks(links, id) == rest + tail;
      forall k | 0 <= k < |rest + tail|
        ensures (rest + tail)[k].movieId < bound
      {
        if k >= |rest| {
          assert (rest + tail)[k] == last;
        } else {
          assert (rest + tail)[k] == rest[k];
        }
      }
    }
  }

  datatype DeleteOutcome = DeleteOutcome(tables: Tables, result: Result<string>)

  /** `delete(id)`: a soft delete that sets the status to 'inactive'. */
  function DeleteStep(t: Tables, id: int): DeleteOutcome
  {
    if id !in t.movies then DeleteOutcome(t, Err(Failure(DeleteFailed)))
    else DeleteOutcome(t.(movies := t.movies[id := t.movies[id].(status := MovieInactive)]), Ok(Deleted))
  }

  method DeleteMovie(db: Database, id: int) returns (result: Result<string>)
    modifies db
    ensures db.tables == DeleteStep(old(db.tables), id).tables
    ensures result == DeleteStep(old(db.tables), id).result
  {
    if id !in db.tables.movies {
      return Err(Failure(DeleteFailed));
    }
    db.tables := db.tables.(movies := db.tables.movies[id := db.tables.movies[id].(status := MovieInactive)]);
    return Ok(Deleted);
  }

  /**
   * A deleted movie keeps its row: it drops out of the listing but is still
   * found by id; nothing else changes.
   */
  lemma DeleteIsSoft(t: Tables, id: int)
    requires id in t.movies
    ensures var r := DeleteStep(t, id).tables;
      && !Listed(r, id) && id in r.movies
      && r.movies[id] == t.movies[id].(status := MovieInactive)
      && (forall k :: k != id ==> (Listed(r, k) <==> Listed(t, k)))
      && r == t.(movies := r.movies)
  {
  }
}
