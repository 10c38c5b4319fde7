/**
 * Creating a showtime: the movie and the room must exist, the "HH:mm" times
 * are read on the show date, and no showtime of the same room and date may
 * overlap the new one in the way the conflict query tests.
 */
module Showtimes {
  import opened Results
  import opened Text
  import opened Store

  const NoMovie := "Phim không tồn tại"
  const NoRoom := "Phòng không tồn tại"
  const Overlap := "Phòng đã có lịch chiếu trong khoảng thời gian này"

  datatype CreateShowtimeRequest = CreateShowtimeRequest(movieId: int, roomId: int, showDate: int,
                                                         startTime: string, endTime: string, basePrice: int)

  datatype ShowtimeView = ShowtimeView(id: int, movieId: int, movieTitle: string, roomId: int, roomName: string,
                                       showDate: int, startTime: int, endTime: int, basePrice: int,
                                       availableSeats: int)

  /**
   * `const [h, m] = text.split(':')` and `setHours(parseInt(h), parseInt(m))`:
   * minutes after midnight, None when either part is missing or not a number.
   * Hours and minutes out of range carry over as `setHours` does.
   */
  function ClockMinutes(text: string): (r: Option<int>)
    ensures r.Some? ==> |Split(text, ':')| >= 2
  {
    var parts := Split(text, ':');
    if |parts| < 2 then None
    else match (ParseInt(parts[0]), ParseInt(parts[1]))
      case (Some(h), Some(m)) => Some(h * 60 + m)
      case _ => None
  }

  /** The text of a time of day in "HH:mm" form. */
  function ClockText(h: int, m: int): string
    requires 0 <= h < 24 && 0 <= m < 60
  {
    TwoDigits(h) + ":" + TwoDigits(m)
  }

  lemma ClockMinutesOfParts(text: string, hh: string, mm: string, h: int, m: int)
    requires Split(text, ':') == [hh, mm] && ParseInt(hh) == Some(h) && ParseInt(mm) == Some(m)
    ensures ClockMinutes(text) == Some(h * 60 + m)
  {
  }

  lemma SplitClockText(h: int, m: int)
    requires 0 <= h < 24 && 0 <= m < 60
    ensures Split(ClockText(h, m), ':') == [TwoDigits(h), TwoDigits(m)]
  {
    var hh, mm := TwoDigits(h), TwoDigits(m);
    assert ':' !in hh by { assert IsDigit(hh[0]) && IsDigit(hh[1]); }
    assert ':' !in mm by { assert IsDigit(mm[0]) && IsDigit(mm[1]); }
    SplitJoin([hh, mm], ':');
    assert Join([hh, mm], ':') == ClockText(h, m);
  }

  /** A zero-padded "HH:mm" text is read as its minutes after midnight. */
  lemma ClockMinutesOfText(h: int, m: int)
    requires 0 <= h < 24 && 0 <= m < 60
    ensures ClockMinutes(ClockText(h, m)) == Some(h * 60 + m)
  {
    SplitClockText(h, m);
    ParseIntOfTwoDigits(h);
    ParseIntOfTwoDigits(m);
    ClockMinutesOfParts(ClockText(h, m), TwoDigits(h), TwoDigits(m), h, m);
  }

  /** A text without ':' never gives a time. */
  lemma ClockMinutesNeedsColon(text: string)
    requires ':' !in text
    ensures ClockMinutes(text) == None
  {
    assert IndexOf(text, ':') == |text|;
  }

  /** The conflict query's test on one row: it holds the new start, or it holds the new end. */
  predicate Clashes(s: Showtime, roomId: int, showDate: int, start: int, end: int)
  {
    && s.roomId == roomId && s.showDate == showDate
    && ((s.startTime <= start && s.endTime > start) || (s.startTime < end && s.endTime >= end))
  }

  predicate HasConflict(showtimes: map<int, Showtime>, roomId: int, showDate: int, start: int, end: int)
  {
    exists k :: k in showtimes && Clashes(showtimes[k], roomId, showDate, start, end)
  }

  /** The new row `create` inserts for a request whose checks passed. */
  function NewShowtime(req: CreateShowtimeRequest, room: Room, start: int, end: int): Showtime
  {
    Showtime(req.movieId, req.roomId, req.showDate, start, end, req.basePrice, room.capacity, "active")
  }

  datatype CreateOutcome = CreateOutcome(tables: Tables, result: Result<ShowtimeView>)

  /** `create`: every error surfaces as BadRequest with its message. */
  function CreateStep(t: Tables, req: CreateShowtimeRequest): CreateOutcome
  {
    if req.movieId !in t.movies then CreateOutcome(t, Err(BadRequest(NoMovie)))
    else if req.roomId !in t.rooms then CreateOutcome(t, Err(BadRequest(NoRoom)))
    else
      match (ClockMinutes(req.startTime), ClockMinutes(req.endTime))
      case (Some(start), Some(end)) =>
        if HasConflict(t.showtimes, req.roomId, req.showDate, start, end) then CreateOutcome(t, Err(BadRequest(Overlap)))
        else
          var room := t.rooms[req.roomId];
          var id := t.nextShowtimeId;
          CreateOutcome(t.(showtimes := t.showtimes[id := NewShowtime(req, room, start, end)], nextShowtimeId := id + 1),
                        Ok(ShowtimeView(id, req.movieId, t.movies[req.movieId].title, req.roomId, room.name,
                                        req.showDate, start, end, req.basePrice, room.capacity)))
      case _ => CreateOutcome(t, Err(BadRequest(InvalidDate)))
  }

  method CreateShowtime(db: Database, req: CreateShowtimeRequest) returns (result: Result<ShowtimeView>)
    modifies db
    ensures db.tables == CreateStep(old(db.tables), req).tables
    ensures result == CreateStep(old(db.tables), req).result
  {
    var t := db.tables;
    if req.movieId !in t.movies {
      return Err(BadRequest(NoMovie));
    }
    if req.roomId !in t.rooms {
      return Err(BadRequest(NoRoom));
    }
    var start := ClockMinutes(req.startTime);
    var end := ClockMinutes(req.endTime);
    if start.None? || end.None? {
      return Err(BadRequest(InvalidDate));
    }
    if HasConflict(t.showtimes, req.roomId, req.showDate, start.value, end.value) {
      return Err(BadRequest(Overlap));
    }
    var room := t.rooms[req.roomId];
    var id := t.nextShowtimeId;
    db.tables := t.(showtimes := t.showtimes[id := NewShowtime(req, room, start.value, end.value)],
                    nextShowtimeId := id + 1);
    result := Ok(ShowtimeView(id, req.movieId, t.movies[req.movieId].title, req.roomId, room.name,
                              req.showDate, start.value, end.value, req.basePrice, room.capacity));
  }

  /** The movie is checked first, then the room; either missing fails with nothing written. */
  lemma CreateChecksMovieThenRoom(t: Tables, req: CreateShowtimeRequest)
    ensures req.movieId !in t.movies ==> CreateStep(t, req) == CreateOutcome(t, Err(BadRequest("Phim không tồn tại")))
    ensures req.movieId in t.movies && req.roomId !in t.rooms ==>
              CreateStep(t, req) == CreateOutcome(t, Err(BadRequest("Phòng không tồn tại")))
  {
  }

  /**
   * With the movie, the room and both times in place, the call fails with
   * the overlap error exactly when some showtime of the room and date
   * clashes; otherwise one 'active' row is added under the next id, with the
   * room's capacity as its free-seat count and no check that end follows start.
   */
  lemma CreateDecides(t: Tables, req: CreateShowtimeRequest, start: int, end: int)
    requires req.movieId in t.movies && req.roomId in t.rooms
    requires ClockMinutes(req.startTime) == Some(start) && ClockMinutes(req.endTime) == Some(end)
    requires SequencesAhead(t)
    ensures var o := CreateStep(t, req);
      && ((o.result == Err(BadRequest("Phòng đã có lịch chiếu trong khoảng thời gian này")))
            <==> HasConflict(t.showtimes, req.roomId, req.showDate, start, end))
      && (o.result.Err? ==> o.tables == t)
      && (o.result.Ok? ==>
            && o.result.value.id == t.nextShowtimeId
            && t.nextShowtimeId !in t.showtimes
            && o.tables.showtimes == t.showtimes[t.nextShowtimeId := Showtime(req.movieId, req.roomId, req.showDate,
                     start, end, req.basePrice, t.rooms[req.roomId].capacity, "active")]
            && o.result.value.availableSeats == t.rooms[req.roomId].capacity
            && SequencesAhead(o.tables))
  {
  }

  /** Creation keeps every id below the next one handed out. */
  lemma CreateKeepsSequencesAhead(t: Tables, req: CreateShowtimeRequest)
    requires SequencesAhead(t)
    ensures SequencesAhead(CreateStep(t, req).tables)
  {
  }

  /**
   * An existing showtime strictly inside the new interval holds neither the
   * new start nor the new end, so the conflict query does not find it.
   */
  lemma EnclosedShowtimeIsNoConflict(s: Showtime, start: int, end: int)
    requires start < s.startTime && s.endTime < end
    ensures !Clashes(s, s.roomId, s.showDate, start, end)
  {
  }

  /** Showtimes of other rooms or other dates never clash. */
  lemma ConflictIsPerRoomAndDate(s: Showtime, roomId: int, showDate: int, start: int, end: int)
    requires s.roomId != roomId || s.showDate != showDate
    ensures !Clashes(s, roomId, showDate, start, end)
  {
  }
}
