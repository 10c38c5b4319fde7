/**
 * The seat-hold service: holding seats for ten minutes while a release job
 * waits in the queue, confirming a payment (which disarms the job and books
 * the seats), and the seat map of a showtime grouped by row.
 */
module SeatReservation {
  import opened Results
  import opened Store
  import opened Ordering
  import Text

  /** The delay of the release job: ten minutes, in milliseconds. */
  const HoldDelayMs := 10 * 60 * 1000

  const ReleaseJobName := "release-seats"

  const SeatsTakenMessage := "Một số ghế đã được đặt"
  const HoldMessage := "Đặt ghế thành công, vui lòng thanh toán trong vòng 10 phút"
  const PaidMessage := "Thanh toán thành công"
  const NoShowtimeMessage := "Không tìm thấy suất chiếu"
  /** The TypeError the reduce throws when `acc[seat.row]` is an inherited member. */
  const PushNotAFunction := "acc[seat.row].push is not a function"

  /** The job `reserveSeats` leaves in the queue. */
  function ReleaseJob(seatIds: seq<int>, showtimeId: int): DelayedJob
  {
    DelayedJob(ReleaseJobName, Job(seatIds, showtimeId), HoldDelayMs)
  }

  /** No requested seat that exists is anything but available; unknown ids are not looked at. */
  predicate AllAvailable(seats: map<int, Seat>, seatIds: seq<int>)
  {
    forall id :: id in seatIds && id in seats ==> seats[id].status == Available
  }

  datatype Reservation = Reservation(message: string, reservedSeats: seq<int>)

  /** The tables and the delayed jobs after `reserveSeats`, and what it answers. */
  datatype ReserveOutcome = ReserveOutcome(tables: Tables, jobs: seq<DelayedJob>, result: Result<Reservation>)

  /**
   * `reserveSeats`: the seats are checked, set to pending, the showtime's
   * counter drops by the number of ids, and the release job is queued. The
   * three writes are separate statements, so when the showtime is missing
   * the seats are already pending when the counter update fails.
   */
  function Reserve(t: Tables, jobs: seq<DelayedJob>, showtimeId: int, seatIds: seq<int>): ReserveOutcome
  {
    if !AllAvailable(t.seats, seatIds) then
      ReserveOutcome(t, jobs, Err(BadRequest(SeatsTakenMessage)))
    else
      var held := t.(seats := WithStatus(t.seats, Elems(seatIds), Pending));
      if showtimeId !in t.showtimes then
        ReserveOutcome(held, jobs, Err(BadRequest(RecordToUpdateNotFound)))
      else
        ReserveOutcome(held.(showtimes := AddAvailable(t.showtimes, showtimeId, -|seatIds|)),
                       jobs + [ReleaseJob(seatIds, showtimeId)],
                       Ok(Reservation(HoldMessage, seatIds)))
  }

  method ReserveSeats(db: Database, queue: JobQueue, userId: int, showtimeId: int, seatIds: seq<int>)
    returns (result: Result<Reservation>)
    modifies db, queue
    ensures db.tables == Reserve(old(db.tables), old(queue.delayed), showtimeId, seatIds).tables
    ensures queue.delayed == Reserve(old(db.tables), old(queue.delayed), showtimeId, seatIds).jobs
    ensures result == Reserve(old(db.tables), old(queue.delayed), showtimeId, seatIds).result
  {
    if !AllAvailable(db.tables.seats, seatIds) {
      return Err(BadRequest(SeatsTakenMessage));
    }
    db.tables := db.tables.(seats := WithStatus(db.tables.seats, Elems(seatIds), Pending));
    if showtimeId !in db.tables.showtimes {
      return Err(BadRequest(RecordToUpdateNotFound));
    }
    db.tables := db.tables.(showtimes := AddAvailable(db.tables.showtimes, showtimeId, -|seatIds|));
    queue.delayed := queue.delayed + [ReleaseJob(seatIds, showtimeId)];
    return Ok(Reservation(HoldMessage, seatIds));
  }

  /** A requested seat that exists and is pending or booked makes the call fail with nothing changed. */
  lemma ReserveRejectsTakenSeat(t: Tables, jobs: seq<DelayedJob>, showtimeId: int, seatIds: seq<int>, id: int)
    requires id in seatIds && id in t.seats && t.seats[id].status != Available
    ensures Reserve(t, jobs, showtimeId, seatIds) == ReserveOutcome(t, jobs, Err(BadRequest(SeatsTakenMessage)))
  {
  }

  /** The seat check fails exactly when some requested seat that exists is not available. */
  lemma ReserveRejectsExactlyTakenSeats(t: Tables, jobs: seq<DelayedJob>, showtimeId: int, seatIds: seq<int>)
    ensures Reserve(t, jobs, showtimeId, seatIds).result == Err(BadRequest(SeatsTakenMessage))
        <==> exists id :: id in seatIds && id in t.seats && t.seats[id].status != Available
  {
    assert SeatsTakenMessage != RecordToUpdateNotFound by {
      assert SeatsTakenMessage[0] != RecordToUpdateNotFound[0];
    }
  }

  /**
   * A successful hold sets every requested seat that exists to pending and no
   * other seat changes; the counter drops by the length of the id list
   * (duplicates and unknown ids included, with no lower bound); exactly one
   * release job is queued; nothing else changes.
   */
  lemma ReserveSucceeds(t: Tables, jobs: seq<DelayedJob>, showtimeId: int, seatIds: seq<int>)
    requires AllAvailable(t.seats, seatIds) && showtimeId in t.showtimes
    ensures var o := Reserve(t, jobs, showtimeId, seatIds);
      && o.result == Ok(Reservation(HoldMessage, seatIds))
      && o.tables.seats.Keys == t.seats.Keys
      && (forall id :: id in t.seats && id in seatIds ==> o.tables.seats[id] == t.seats[id].(status := Pending))
      && (forall id :: id in t.seats && id !in seatIds ==> o.tables.seats[id] == t.seats[id])
      && o.tables.showtimes.Keys == t.showtimes.Keys
      && o.tables.showtimes[showtimeId].availableSeats == t.showtimes[showtimeId].availableSeats - |seatIds|
      && o.tables.showtimes[showtimeId] == t.showtimes[showtimeId].(availableSeats := o.tables.showtimes[showtimeId].availableSeats)
      && (forall k :: k in t.showtimes && k != showtimeId ==> o.tables.showtimes[k] == t.showtimes[k])
      && o.jobs == jobs + [DelayedJob("release-seats", Job(seatIds, showtimeId), 600000)]
      && o.tables == t.(seats := o.tables.seats, showtimes := o.tables.showtimes)
  {
  }

  /**
   * The hold is on the seat, not on the showtime: once a seat is held for one
   * showtime, a request naming it for any showtime is refused.
   */
  lemma HoldBlocksEveryShowtime(t: Tables, jobs: seq<DelayedJob>, showtimeId: int, seatIds: seq<int>,
                                otherShowtime: int, otherIds: seq<int>, id: int)
    requires Reserve(t, jobs, showtimeId, seatIds).result.Ok?
    requires id in seatIds && id in otherIds && id in t.seats
    ensures var o := Reserve(t, jobs, showtimeId, seatIds);
      Reserve(o.tables, o.jobs, otherShowtime, otherIds).result == Err(BadRequest(SeatsTakenMessage))
  {
    var o := Reserve(t, jobs, showtimeId, seatIds);
    ReserveRejectsTakenSeat(o.tables, o.jobs, otherShowtime, otherIds, id);
  }

  /**
   * When the showtime does not exist the call fails after the seats were set
   * to pending, and no release job is queued: the seats stay held.
   */
  lemma MissingShowtimeStrandsSeats(t: Tables, jobs: seq<DelayedJob>, showtimeId: int, seatIds: seq<int>)
    requires AllAvailable(t.seats, seatIds) && showtimeId !in t.showtimes
    ensures var o := Reserve(t, jobs, showtimeId, seatIds);
      && o.result == Err(BadRequest(RecordToUpdateNotFound))
      && o.jobs == jobs
      && o.tables.showtimes == t.showtimes
      && (forall id :: id in seatIds && id in t.seats ==> o.tables.seats[id].status == Pending)
  {
  }

  /** The predicate `confirmPayment` uses to pick jobs: the same showtime and the same id list, in order. */
  predicate Matches(job: DelayedJob, showtimeId: int, seatIds: seq<int>)
  {
    job.data.showtimeId == showtimeId && job.data.seatIds == seatIds
  }

  /** The jobs that are not removed, in their order. */
  function WithoutMatching(jobs: seq<DelayedJob>, showtimeId: int, seatIds: seq<int>): (r: seq<DelayedJob>)
    ensures |r| <= |jobs|
  {
    if |jobs| == 0 then []
    else
      var last := jobs[|jobs| - 1];
      WithoutMatching(jobs[..|jobs| - 1], showtimeId, seatIds)
        + (if Matches(last, showtimeId, seatIds) then [] else [last])
  }

  /** Exactly the jobs that do not match are kept. */
  lemma {:induction false} WithoutMatchingKeeps(jobs: seq<DelayedJob>, showtimeId: int, seatIds: seq<int>)
    ensures forall j :: j in WithoutMatching(jobs, showtimeId, seatIds) <==> j in jobs && !Matches(j, showtimeId, seatIds)
    decreases |jobs|
  {
    if |jobs| > 0 {
      var front := jobs[..|jobs| - 1];
      WithoutMatchingKeeps(front, showtimeId, seatIds);
      assert jobs == front + [jobs[|jobs| - 1]];
    }
  }

  lemma WithoutMatchingStep(jobs: seq<DelayedJob>, i: int, showtimeId: int, seatIds: seq<int>)
    requires 0 <= i < |jobs|
    ensures WithoutMatching(jobs[..i + 1], showtimeId, seatIds)
         == WithoutMatching(jobs[..i], showtimeId, seatIds)
            + (if Matches(jobs[i], showtimeId, seatIds) then [] else [jobs[i]])
  {
    assert jobs[..i + 1][..i] == jobs[..i];
  }

  /** Removing the first element after a prefix, and passing over it. */
  lemma SpliceStep<T>(kept: seq<T>, rest: seq<T>, current: seq<T>)
    requires current == kept + rest && |rest| > 0
    ensures current[..|kept|] + current[|kept| + 1..] == kept + rest[1..]
    ensures current == (kept + [rest[0]]) + rest[1..]
  {
    assert current[..|kept|] == kept && current[|kept| + 1..] == rest[1..];
  }

  /** The tables after `confirmPayment`: every listed seat is booked, whatever it was. */
  function Confirm(t: Tables, seatIds: seq<int>): (r: Tables)
    ensures r.seats.Keys == t.seats.Keys
    ensures forall id :: id in t.seats && id in seatIds ==> r.seats[id] == t.seats[id].(status := Booked)
    ensures forall id :: id in t.seats && id !in seatIds ==> r.seats[id] == t.seats[id]
    ensures r == t.(seats := r.seats)
  {
    t.(seats := WithStatus(t.seats, Elems(seatIds), Booked))
  }

  /**
   * The scan of `confirmPayment` over the delayed jobs: each job whose
   * payload matches is removed from the queue, the others stay in order.
   */
  method RemoveMatching(queue: JobQueue, showtimeId: int, seatIds: seq<int>)
    modifies queue
    ensures queue.delayed == WithoutMatching(old(queue.delayed), showtimeId, seatIds)
  {
    var jobs := queue.delayed;
    var kept: seq<DelayedJob> := [];
    var i := 0;
    while i < |jobs|
      invariant 0 <= i <= |jobs|
      invariant kept == WithoutMatching(jobs[..i], showtimeId, seatIds)
      invariant queue.delayed == kept + jobs[i..]
    {
      WithoutMatchingStep(jobs, i, showtimeId, seatIds);
      SpliceStep(kept, jobs[i..], queue.delayed);
      assert jobs[i..][0] == jobs[i] && jobs[i..][1..] == jobs[i + 1..];
      if Matches(jobs[i], showtimeId, seatIds) {
        queue.delayed := queue.delayed[..|kept|] + queue.delayed[|kept| + 1..];
      } else {
        kept := kept + [jobs[i]];
      }
      i := i + 1;
    }
    assert jobs[..i] == jobs && jobs[i..] == [];
  }

  /**
   * `confirmPayment`: the matching delayed jobs are removed, then the listed
   * seats are booked. The user id is not used.
   */
  method ConfirmPayment(db: Database, queue: JobQueue, userId: int, showtimeId: int, seatIds: seq<int>)
    returns (message: string)
    modifies db, queue
    ensures queue.delayed == WithoutMatching(old(queue.delayed), showtimeId, seatIds)
    ensures db.tables == Confirm(old(db.tables), seatIds)
    ensures message == PaidMessage
  {
    RemoveMatching(queue, showtimeId, seatIds);
    db.tables := Confirm(db.tables, seatIds);
    message := PaidMessage;
  }

  /** After a confirmation no job matching its payload is left to release the seats. */
  lemma ConfirmDisarmsHold(jobs: seq<DelayedJob>, showtimeId: int, seatIds: seq<int>)
    ensures ReleaseJob(seatIds, showtimeId) !in WithoutMatching(jobs, showtimeId, seatIds)
    ensures forall j :: j in jobs && !Matches(j, showtimeId, seatIds) ==> j in WithoutMatching(jobs, showtimeId, seatIds)
  {
    WithoutMatchingKeeps(jobs, showtimeId, seatIds);
  }

  /** A job holding the same seats in another order is not a match and stays armed. */
  lemma ReorderedHoldSurvives(jobs: seq<DelayedJob>, showtimeId: int, seatIds: seq<int>, reordered: seq<int>)
    requires ReleaseJob(reordered, showtimeId) in jobs
    requires multiset(reordered) == multiset(seatIds) && reordered != seatIds
    ensures ReleaseJob(reordered, showtimeId) in WithoutMatching(jobs, showtimeId, seatIds)
  {
    WithoutMatchingKeeps(jobs, showtimeId, seatIds);
  }

  // ----- The seat map of a showtime -----

  /** A seat row of the seats table: its id and its columns. */
  datatype SeatRecord = SeatRecord(id: int, seat: Seat)

  /** One seat as the seat map shows it. */
  datatype SeatView = SeatView(id: int, seatNumber: int, seatType: string, price: Option<int>, status: SeatStatus)

  datatype RowGroup = RowGroup(row: string, seats: seq<SeatView>)

  /** One seat of the map with the row it is listed under. */
  datatype Listed = Listed(row: string, view: SeatView)

  datatype MovieRef = MovieRef(id: int, title: string)

  /** The answer of `getSeatsForShowtime`; times are in minutes. */
  datatype SeatMap = SeatMap(showtimeId: int, movie: MovieRef, startTime: int, endTime: int,
                             basePrice: int, roomId: int, roomName: string, capacity: int,
                             rows: seq<RowGroup>)

  function ViewOf(e: SeatRecord): SeatView
  {
    SeatView(e.id, e.seat.seatNumber, e.seat.seatType, e.seat.price, e.seat.status)
  }

  function Label(e: SeatRecord): Listed
  {
    Listed(e.seat.row, ViewOf(e))
  }

  /** `orderBy: [{ row: 'asc' }, { seat_number: 'asc' }]`, ties broken by id. */
  predicate SeatBefore(a: SeatRecord, b: SeatRecord)
  {
    || StrLess(a.seat.row, b.seat.row)
    || (a.seat.row == b.seat.row && a.seat.seatNumber < b.seat.seatNumber)
    || (a.seat.row == b.seat.row && a.seat.seatNumber == b.seat.seatNumber && a.id <= b.id)
  }

  lemma SeatBeforeIsTotalPreorder()
    ensures TotalPreorder(SeatBefore)
  {
    forall a, b
      ensures SeatBefore(a, b) || SeatBefore(b, a)
    {
      if a.seat.row != b.seat.row {
        StrLessTotal(a.seat.row, b.seat.row);
      }
    }
    forall a, b, c | SeatBefore(a, b) && SeatBefore(b, c)
      ensures SeatBefore(a, c)
    {
      if StrLess(a.seat.row, b.seat.row) && StrLess(b.seat.row, c.seat.row) {
        StrLessTransitive(a.seat.row, b.seat.row, c.seat.row);
      }
    }
  }

  /** Index of the group for `row`, or |groups| when there is none (the `acc[seat.row]` lookup). */
  function RowIndex(groups: seq<RowGroup>, row: string): (i: nat)
    ensures i <= |groups|
    ensures i < |groups| ==> groups[i].row == row
    ensures forall j :: 0 <= j < i ==> groups[j].row != row
  {
    if |groups| == 0 then 0
    else if groups[0].row == row then 0
    else 1 + RowIndex(groups[1..], row)
  }

  /** One step of the reduce: the seat is appended to its row's group, a new group opening at the end. */
  function AddToGroups(groups: seq<RowGroup>, e: SeatRecord): seq<RowGroup>
  {
    var i := RowIndex(groups, e.seat.row);
    if i < |groups| then groups[i := groups[i].(seats := groups[i].seats + [ViewOf(e)])]
    else groups + [RowGroup(e.seat.row, [ViewOf(e)])]
  }

  /**
   * The reduce over the ordered seats: one group per row, the groups in the
   * order their rows first appear. It stands for the reduce only when no row
   * is an inherited member name (`InheritedKey`), for which the reduce throws.
   */
  function GroupByRow(es: seq<SeatRecord>): seq<RowGroup>
  {
    if |es| == 0 then [] else AddToGroups(GroupByRow(es[..|es| - 1]), es[|es| - 1])
  }

  function Tagged(g: RowGroup): (r: seq<Listed>)
    ensures |r| == |g.seats|
    ensures forall k :: 0 <= k < |r| ==> r[k] == Listed(g.row, g.seats[k])
  {
    seq(|g.seats|, k requires 0 <= k < |g.seats| => Listed(g.row, g.seats[k]))
  }

  /** The seats of the map in the order they are shown, each with its row. */
  function Entries(groups: seq<RowGroup>): seq<Listed>
  {
    if |groups| == 0 then [] else Entries(groups[..|groups| - 1]) + Tagged(groups[|groups| - 1])
  }

  function Labelled(es: seq<SeatRecord>): (r: seq<Listed>)
    ensures |r| == |es|
    ensures forall k :: 0 <= k < |es| ==> r[k] == Label(es[k])
  {
    seq(|es|, k requires 0 <= k < |es| => Label(es[k]))
  }

  predicate RowSorted(es: seq<SeatRecord>)
  {
    forall i, j :: 0 <= i < j < |es| ==> StrLessEq(es[i].seat.row, es[j].seat.row)
  }

  predicate RowsAscending(groups: seq<RowGroup>)
  {
    forall i, j :: 0 <= i < j < |groups| ==> StrLess(groups[i].row, groups[j].row)
  }

  lemma EntriesOfAppend(groups: seq<RowGroup>, g: RowGroup)
    ensures Entries(groups + [g]) == Entries(groups) + Tagged(g)
  {
    assert (groups + [g])[..|groups|] == groups;
  }

  /** Entries of a list whose last group is replaced. */
  lemma EntriesOfLastUpdate(g: seq<RowGroup>, x: RowGroup)
    requires |g| > 0
    ensures Entries(g[|g| - 1 := x]) == Entries(g[..|g| - 1]) + Tagged(x)
  {
    var n := |g| - 1;
    assert g[n := x] == g[..n] + [x];
    EntriesOfAppend(g[..n], x);
  }

  predicate GroupsNonEmpty(groups: seq<RowGroup>)
  {
    forall i :: 0 <= i < |groups| ==> |groups[i].seats| > 0
  }

  /** A seat of the last group's row joins that group. */
  lemma {:induction false} JoinLastGroup(g: seq<RowGroup>, e: SeatRecord)
    requires |g| > 0 && RowsAscending(g) && GroupsNonEmpty(g) && g[|g| - 1].row == e.seat.row
    ensures var r := AddToGroups(g, e);
      && r == g[|g| - 1 := g[|g| - 1].(seats := g[|g| - 1].seats + [ViewOf(e)])]
      && Entries(r) == Entries(g) + [Label(e)]
      && RowsAscending(r) && GroupsNonEmpty(r) && |r| > 0 && r[|r| - 1].row == e.seat.row
  {
    var n := |g| - 1;
    forall j | 0 <= j < n
      ensures g[j].row != e.seat.row
    {
      StrLessIrreflexive(g[j].row);
    }
    assert RowIndex(g, e.seat.row) == n;
    var last := g[n].(seats := g[n].seats + [ViewOf(e)]);
    EntriesOfLastUpdate(g, last);
    EntriesOfLastUpdate(g, g[n]);
    assert g[n := g[n]] == g;
    assert Tagged(last) == Tagged(g[n]) + [Label(e)];
  }

  /** A seat whose row comes after every group's row opens a new group at the end. */
  lemma {:induction false} OpenGroup(g: seq<RowGroup>, e: SeatRecord)
    requires RowsAscending(g) && GroupsNonEmpty(g)
    requires |g| > 0 ==> StrLess(g[|g| - 1].row, e.seat.row)
    ensures var r := AddToGroups(g, e);
      && r == g + [RowGroup(e.seat.row, [ViewOf(e)])]
      && Entries(r) == Entries(g) + [Label(e)]
      && RowsAscending(r) && GroupsNonEmpty(r) && |r| > 0 && r[|r| - 1].row == e.seat.row
  {
    forall j | 0 <= j < |g|
      ensures StrLess(g[j].row, e.seat.row)
    {
      if j < |g| - 1 {
        StrLessTransitive(g[j].row, g[|g| - 1].row, e.seat.row);
      }
    }
    forall j | 0 <= j < |g|
      ensures g[j].row != e.seat.row
    {
      StrLessIrreflexive(e.seat.row);
    }
    assert RowIndex(g, e.seat.row) == |g|;
    EntriesOfAppend(g, RowGroup(e.seat.row, [ViewOf(e)]));
  }

  /**
   * Grouping seats that come ordered by row keeps their order, labels each
   * with its own row, and gives one non-empty group per row, rows ascending.
   */
  lemma {:induction false} GroupByRowOfSorted(es: seq<SeatRecord>)
    requires RowSorted(es)
    ensures Entries(GroupByRow(es)) == Labelled(es)
    ensures RowsAscending(GroupByRow(es)) && GroupsNonEmpty(GroupByRow(es))
    ensures |es| > 0 ==> |GroupByRow(es)| > 0 && GroupByRow(es)[|GroupByRow(es)| - 1].row == es[|es| - 1].seat.row
    decreases |es|
  {
    if |es| > 0 {
      var front := es[..|es| - 1];
      var e := es[|es| - 1];
      SortedFront(es);
      LabelledSnoc(es);
      GroupByRowOfSorted(front);
      var g := GroupByRow(front);
      if |g| > 0 && g[|g| - 1].row == e.seat.row {
        JoinLastGroup(g, e);
      } else {
        OpenGroup(g, e);
      }
    }
  }

  lemma SortedFront(es: seq<SeatRecord>)
    requires RowSorted(es) && |es| > 0
    ensures RowSorted(es[..|es| - 1])
    ensures |es| > 1 ==> StrLessEq(es[|es| - 2].seat.row, es[|es| - 1].seat.row)
  {
  }

  lemma LabelledSnoc(es: seq<SeatRecord>)
    requires |es| > 0
    ensures Labelled(es) == Labelled(es[..|es| - 1]) + [Label(es[|es| - 1])]
  {
  }

  /** The seats of the room, as seat records. */
  function RoomSeats(seats: map<int, Seat>, roomId: int): set<SeatRecord>
  {
    set id | id in seats && seats[id].roomId == roomId :: SeatRecord(id, seats[id])
  }

  // ----- The key order of `Object.entries` -----

  /**
   * A canonical array index: the decimal text, without leading zeros, of an
   * integer from 0 to 2^32 - 2. An object lists such keys before all others.
   */
  predicate IsIndexKey(key: string)
  {
    var v := Text.DigitsValue(key, 10);
    0 <= v < 0xFFFF_FFFF && Text.NatToString(v) == key
  }

  /** The number an array-index key stands for. */
  function IndexValue(key: string): int
  {
    Text.DigitsValue(key, 10)
  }

  /**
   * The order `Object.entries` gives two row keys: array indices first, by
   * value; then the other keys in insertion order, which for rows inserted
   * in ascending order is ascending order.
   */
  predicate KeyBefore(a: string, b: string)
  {
    if IsIndexKey(a) then !IsIndexKey(b) || IndexValue(a) < IndexValue(b)
    else !IsIndexKey(b) && StrLess(a, b)
  }

  predicate KeyOrdered(groups: seq<RowGroup>)
  {
    forall i, j :: 0 <= i < j < |groups| ==> KeyBefore(groups[i].row, groups[j].row)
  }

  predicate IndexAscending(groups: seq<RowGroup>)
  {
    forall i, j :: 0 <= i < j < |groups| ==> IndexValue(groups[i].row) < IndexValue(groups[j].row)
  }

  /** The groups whose row is, or is not, an array index, in insertion order. */
  function KeysWhere(groups: seq<RowGroup>, index: bool): seq<RowGroup>
  {
    if |groups| == 0 then []
    else (if IsIndexKey(groups[0].row) == index then [groups[0]] else []) + KeysWhere(groups[1..], index)
  }

  /** Inserts a group before the first one whose index is not smaller. */
  function InsertByIndex(g: RowGroup, sorted: seq<RowGroup>): seq<RowGroup>
  {
    if |sorted| == 0 then [g]
    else if IndexValue(g.row) <= IndexValue(sorted[0].row) then [g] + sorted
    else [sorted[0]] + InsertByIndex(g, sorted[1..])
  }

  function SortByIndex(groups: seq<RowGroup>): seq<RowGroup>
  {
    if |groups| == 0 then [] else InsertByIndex(groups[0], SortByIndex(groups[1..]))
  }

  /**
   * `Object.entries` of the object the reduce builds: the rows that are
   * array indices first, in ascending numeric order, then the other rows in
   * the order they were inserted.
   */
  function ObjectEntries(groups: seq<RowGroup>): seq<RowGroup>
  {
    SortByIndex(KeysWhere(groups, true)) + KeysWhere(groups, false)
  }

  lemma KeyBeforeIrreflexive(a: string)
    ensures !KeyBefore(a, a)
  {
    StrLessIrreflexive(a);
  }

  /** Two array-index keys with the same value are the same text. */
  lemma IndexKeyInjective(a: string, b: string)
    requires IsIndexKey(a) && IsIndexKey(b) && IndexValue(a) == IndexValue(b)
    ensures a == b
  {
  }

  lemma {:induction false} KeysWhereMembers(groups: seq<RowGroup>, index: bool)
    ensures forall g :: g in KeysWhere(groups, index) <==> g in groups && IsIndexKey(g.row) == index
    decreases |groups|
  {
    if |groups| > 0 {
      KeysWhereMembers(groups[1..], index);
      assert groups == [groups[0]] + groups[1..];
    }
  }

  lemma {:induction false} KeysWhereSubset(groups: seq<RowGroup>, index: bool)
    ensures forall x :: x in KeysWhere(groups, index) ==> x in groups
    decreases |groups|
  {
    if |groups| > 0 {
      KeysWhereSubset(groups[1..], index);
    }
  }

  /** The rows after the first are ascending and all above it. */
  lemma AscendingTail(groups: seq<RowGroup>)
    requires RowsAscending(groups) && |groups| > 0
    ensures RowsAscending(groups[1..])
    ensures forall x :: x in groups[1..] ==> StrLess(groups[0].row, x.row)
  {
    var tail := groups[1..];
    forall i, j | 0 <= i < j < |tail|
      ensures StrLess(tail[i].row, tail[j].row)
    {
      assert tail[i] == groups[i + 1] && tail[j] == groups[j + 1];
    }
    forall x | x in tail
      ensures StrLess(groups[0].row, x.row)
    {
      var k :| 0 <= k < |tail| && tail[k] == x;
      assert groups[k + 1] == x;
    }
  }

  lemma AscendingCons(g: RowGroup, rest: seq<RowGroup>)
    requires RowsAscending(rest)
    requires forall x :: x in rest ==> StrLess(g.row, x.row)
    ensures RowsAscending([g] + rest)
  {
    var r := [g] + rest;
    forall i, j | 0 <= i < j < |r|
      ensures StrLess(r[i].row, r[j].row)
    {
      assert r[j] == rest[j - 1] && r[j] in rest;
      if i > 0 {
        assert r[i] == rest[i - 1];
      }
    }
  }

  lemma {:induction false} KeysWhereAscending(groups: seq<RowGroup>, index: bool)
    requires RowsAscending(groups)
    ensures RowsAscending(KeysWhere(groups, index))
    decreases |groups|
  {
    if |groups| > 0 {
      var tail := groups[1..];
      var rest := KeysWhere(tail, index);
      AscendingTail(groups);
      KeysWhereAscending(tail, index);
      if IsIndexKey(groups[0].row) == index {
        KeysWhereSubset(tail, index);
        AscendingCons(groups[0], rest);
        assert KeysWhere(groups, index) == [groups[0]] + rest;
      } else {
        assert KeysWhere(groups, index) == [] + rest;
        assert [] + rest == rest;
      }
    }
  }

  lemma {:induction false} InsertByIndexMembers(g: RowGroup, sorted: seq<RowGroup>)
    ensures forall x :: x in InsertByIndex(g, sorted) <==> x == g || x in sorted
    decreases |sorted|
  {
    if |sorted| > 0 && IndexValue(g.row) > IndexValue(sorted[0].row) {
      InsertByIndexMembers(g, sorted[1..]);
      assert sorted == [sorted[0]] + sorted[1..];
    }
  }

  /** The groups after the first have larger values than it and stay ascending. */
  lemma IndexTail(sorted: seq<RowGroup>)
    requires IndexAscending(sorted) && |sorted| > 0
    ensures IndexAscending(sorted[1..])
    ensures forall x :: x in sorted[1..] ==> IndexValue(sorted[0].row) < IndexValue(x.row)
  {
    var tail := sorted[1..];
    forall i, j | 0 <= i < j < |tail|
      ensures IndexValue(tail[i].row) < IndexValue(tail[j].row)
    {
      assert tail[i] == sorted[i + 1] && tail[j] == sorted[j + 1];
    }
    forall x | x in tail
      ensures IndexValue(sorted[0].row) < IndexValue(x.row)
    {
      var k :| 0 <= k < |tail| && tail[k] == x;
      assert sorted[k + 1] == x;
    }
  }

  lemma IndexCons(g: RowGroup, rest: seq<RowGroup>)
    requires IndexAscending(rest)
    requires forall x :: x in rest ==> IndexValue(g.row) < IndexValue(x.row)
    ensures IndexAscending([g] + rest)
  {
    var r := [g] + rest;
    forall i, j | 0 <= i < j < |r|
      ensures IndexValue(r[i].row) < IndexValue(r[j].row)
    {
      assert r[j] == rest[j - 1] && r[j] in rest;
      if i > 0 {
        assert r[i] == rest[i - 1];
      }
    }
  }

  lemma {:induction false} InsertByIndexAscending(g: RowGroup, sorted: seq<RowGroup>)
    requires IndexAscending(sorted)
    requires forall x :: x in sorted ==> IndexValue(x.row) != IndexValue(g.row)
    ensures IndexAscending(InsertByIndex(g, sorted))
    decreases |sorted|
  {
    if |sorted| > 0 {
      var rest := sorted[1..];
      IndexTail(sorted);
      assert sorted[0] in sorted;
      if IndexValue(g.row) <= IndexValue(sorted[0].row) {
        IndexCons(g, sorted);
      } else {
        assert forall x :: x in rest ==> x in sorted;
        InsertByIndexAscending(g, rest);
        InsertByIndexMembers(g, rest);
        IndexCons(sorted[0], InsertByIndex(g, rest));
      }
    }
  }

  /** Sorting groups of distinct index values keeps the groups and orders them by value. */
  lemma {:induction false} SortByIndexSorts(groups: seq<RowGroup>)
    requires forall i, j :: 0 <= i < j < |groups| ==> IndexValue(groups[i].row) != IndexValue(groups[j].row)
    ensures forall x :: x in SortByIndex(groups) <==> x in groups
    ensures IndexAscending(SortByIndex(groups))
    decreases |groups|
  {
    if |groups| > 0 {
      var rest := groups[1..];
      assert forall i, j :: 0 <= i < j < |rest| ==> IndexValue(rest[i].row) != IndexValue(rest[j].row) by {
        forall i, j | 0 <= i < j < |rest|
          ensures IndexValue(rest[i].row) != IndexValue(rest[j].row)
        {
          assert rest[i] == groups[i + 1] && rest[j] == groups[j + 1];
        }
      }
      SortByIndexSorts(rest);
      var sorted := SortByIndex(rest);
      InsertByIndexMembers(groups[0], sorted);
      forall x | x in sorted
        ensures IndexValue(x.row) != IndexValue(groups[0].row)
      {
        var k :| 0 <= k < |rest| && rest[k] == x;
        assert groups[k + 1] == x;
      }
      InsertByIndexAscending(groups[0], sorted);
      assert groups == [groups[0]] + rest;
    }
  }

  /**
   * `Object.entries` lists the same groups as the reduce built, array-index
   * rows first by value and then the others in ascending order, when the
   * reduce inserted the rows in ascending order.
   */
  lemma ObjectEntriesOrder(groups: seq<RowGroup>)
    requires RowsAscending(groups)
    ensures forall g :: g in ObjectEntries(groups) <==> g in groups
    ensures KeyOrdered(ObjectEntries(groups))
  {
    var idx := KeysWhere(groups, true);
    var other := KeysWhere(groups, false);
    KeysWhereMembers(groups, true);
    KeysWhereMembers(groups, false);
    KeysWhereAscending(groups, true);
    KeysWhereAscending(groups, false);
    forall i, j | 0 <= i < j < |idx|
      ensures IndexValue(idx[i].row) != IndexValue(idx[j].row)
    {
      assert idx[i] in idx && idx[j] in idx;
      if IndexValue(idx[i].row) == IndexValue(idx[j].row) {
        IndexKeyInjective(idx[i].row, idx[j].row);
        StrLessIrreflexive(idx[i].row);
      }
    }
    SortByIndexSorts(idx);
    var sorted := SortByIndex(idx);
    var r := sorted + other;
    forall i, j | 0 <= i < j < |r|
      ensures KeyBefore(r[i].row, r[j].row)
    {
      if j < |sorted| {
        assert r[i] == sorted[i] && r[j] == sorted[j];
        assert sorted[i] in idx && sorted[j] in idx;
      } else if i < |sorted| {
        assert r[i] == sorted[i] && r[j] == other[j - |sorted|];
        assert sorted[i] in idx && other[j - |sorted|] in other;
      } else {
        assert r[i] == other[i - |sorted|] && r[j] == other[j - |sorted|];
        assert other[i - |sorted|] in other && other[j - |sorted|] in other;
      }
    }
  }

  lemma SampleKeys()
    ensures IsIndexKey("10") && IsIndexKey("2") && !IsIndexKey("A")
    ensures IndexValue("10") == 10 && IndexValue("2") == 2
  {
    assert Text.DigitsValue("1", 10) == 1 by {
      assert "1"[..0] == "";
    }
    assert Text.DigitsValue("2", 10) == 2 by {
      assert "2"[..0] == "";
    }
    assert Text.DigitsValue("A", 10) == 10 by {
      assert "A"[..0] == "";
    }
    assert Text.DigitsValue("10", 10) == 10 by {
      assert "10"[..1] == "1";
    }
    assert Text.NatToString(10) == "10" by {
      assert Text.NatToString(1) == "1";
    }
    assert Text.NatToString(2) == "2";
  }

  /** Rows "10", "2" and "A", inserted in that order, are listed "2", "10", "A". */
  lemma NumericRowsComeFirst(ten: seq<SeatView>, two: seq<SeatView>, letter: seq<SeatView>)
    ensures ObjectEntries([RowGroup("10", ten), RowGroup("2", two), RowGroup("A", letter)])
         == [RowGroup("2", two), RowGroup("10", ten), RowGroup("A", letter)]
  {
    SampleKeys();
    var g10, g2, ga := RowGroup("10", ten), RowGroup("2", two), RowGroup("A", letter);
    var gs := [g10, g2, ga];
    assert gs[1..] == [g2, ga] && [g2, ga][1..] == [ga] && [ga][1..] == [];
    assert KeysWhere([ga], true) == [];
    assert KeysWhere([ga], false) == [ga];
    assert KeysWhere([g2, ga], true) == [g2];
    assert KeysWhere([g2, ga], false) == [ga];
    assert KeysWhere(gs, true) == [g10, g2];
    assert KeysWhere(gs, false) == [ga];
    assert [g10, g2][1..] == [g2] && [g2][1..] == [];
    assert SortByIndex([g2]) == [g2];
    assert InsertByIndex(g10, [g2]) == [g2, g10];
    assert SortByIndex([g10, g2]) == [g2, g10];
  }

  // ----- The seat map -----

  /**
   * Every seat a group shows is a seat of the room under its own row and as
   * stored; every seat of the room is shown in a group of its row; within a
   * group the seats are distinct and ordered by seat number; no group is empty.
   */
  ghost predicate GroupsOfRoom(seats: map<int, Seat>, roomId: int, groups: seq<RowGroup>)
  {
    && (forall g, v :: g in groups && v in g.seats ==>
          && v.id in seats && seats[v.id].roomId == roomId && seats[v.id].row == g.row
          && v == ViewOf(SeatRecord(v.id, seats[v.id])))
    && (forall id :: id in seats && seats[id].roomId == roomId ==>
          exists g :: g in groups && g.row == seats[id].row && ViewOf(SeatRecord(id, seats[id])) in g.seats)
    && (forall g, i, j :: g in groups && 0 <= i < j < |g.seats| ==>
          g.seats[i].id != g.seats[j].id && g.seats[i].seatNumber <= g.seats[j].seatNumber)
    && (forall g :: g in groups ==> |g.seats| > 0)
  }

  /** The seat map's rows: the room's seats grouped by row, rows in `Object.entries` order. */
  ghost predicate ListsRoom(seats: map<int, Seat>, roomId: int, rows: seq<RowGroup>)
  {
    GroupsOfRoom(seats, roomId, rows) && KeyOrdered(rows)
  }

  /** In a listed map each seat of the room appears exactly once. */
  lemma ShownOnce(seats: map<int, Seat>, roomId: int, rows: seq<RowGroup>, id: int)
    requires ListsRoom(seats, roomId, rows) && id in seats && seats[id].roomId == roomId
    ensures exists a, i :: 0 <= a < |rows| && 0 <= i < |rows[a].seats| && rows[a].seats[i].id == id
    ensures forall a, i, b, j ::
              && 0 <= a < |rows| && 0 <= i < |rows[a].seats| && rows[a].seats[i].id == id
              && 0 <= b < |rows| && 0 <= j < |rows[b].seats| && rows[b].seats[j].id == id
              ==> a == b && i == j
  {
    var g :| g in rows && g.row == seats[id].row && ViewOf(SeatRecord(id, seats[id])) in g.seats;
    var a :| 0 <= a < |rows| && rows[a] == g;
    var i :| 0 <= i < |g.seats| && g.seats[i] == ViewOf(SeatRecord(id, seats[id]));
    assert rows[a].seats[i].id == id;
    forall a, i, b, j |
      && 0 <= a < |rows| && 0 <= i < |rows[a].seats| && rows[a].seats[i].id == id
      && 0 <= b < |rows| && 0 <= j < |rows[b].seats| && rows[b].seats[j].id == id
      ensures a == b && i == j
    {
      SameSeatSameRow(seats, roomId, rows, a, i, b, j);
    }
  }

  /** Two places in the map that show the same seat are one place. */
  lemma SameSeatSameRow(seats: map<int, Seat>, roomId: int, rows: seq<RowGroup>, a: int, i: int, b: int, j: int)
    requires ListsRoom(seats, roomId, rows)
    requires 0 <= a < |rows| && 0 <= i < |rows[a].seats| && 0 <= b < |rows| && 0 <= j < |rows[b].seats|
    requires rows[a].seats[i].id == rows[b].seats[j].id
    ensures a == b && i == j
  {
    assert rows[a] in rows && rows[a].seats[i] in rows[a].seats;
    assert rows[b] in rows && rows[b].seats[j] in rows[b].seats;
    KeyBeforeIrreflexive(rows[a].row);
  }

  /**
   * The names every object inherits from `Object.prototype`. For such a row
   * `acc[seat.row]` of the reduce's `{}` is already truthy, so no array is
   * made and the `push` that follows throws.
   */
  const InheritedKeys: set<string> := {
    "constructor", "hasOwnProperty", "isPrototypeOf", "propertyIsEnumerable", "toString",
    "toLocaleString", "valueOf", "__proto__", "__defineGetter__", "__defineSetter__",
    "__lookupGetter__", "__lookupSetter__"}

  predicate InheritedKey(row: string)
  {
    row in InheritedKeys
  }

  /** Some seat of the room sits in a row that makes the reduce throw. */
  predicate HasInheritedRow(seats: map<int, Seat>, roomId: int)
  {
    exists id :: id in seats && seats[id].roomId == roomId && InheritedKey(seats[id].row)
  }

  /**
   * `getSeatsForShowtime`: BadRequest when the showtime is missing; every
   * error thrown later is rethrown as BadRequest with its message: the
   * required room or movie missing, or the reduce meeting a row named after
   * an inherited member. Otherwise the showtime, its room and the room's seats
   * grouped by row.
   */
  method GetSeatsForShowtime(t: Tables, showtimeId: int) returns (result: Result<SeatMap>)
    ensures showtimeId !in t.showtimes ==> result == Err(BadRequest(NoShowtimeMessage))
    ensures showtimeId in t.showtimes
            && (t.showtimes[showtimeId].roomId !in t.rooms || t.showtimes[showtimeId].movieId !in t.movies)
            ==> result == Err(BadRequest(RequiredRelationMissing))
    ensures showtimeId in t.showtimes && t.showtimes[showtimeId].roomId in t.rooms
            && t.showtimes[showtimeId].movieId in t.movies && HasInheritedRow(t.seats, t.showtimes[showtimeId].roomId)
            ==> result == Err(BadRequest(PushNotAFunction))
    ensures result.Ok? ==>
      && showtimeId in t.showtimes
      && var s := t.showtimes[showtimeId];
      && s.roomId in t.rooms && s.movieId in t.movies
      && result.value.showtimeId == showtimeId && result.value.roomId == s.roomId
      && result.value.movie == MovieRef(s.movieId, t.movies[s.movieId].title)
      && result.value.startTime == s.startTime && result.value.endTime == s.endTime
      && result.value.basePrice == s.basePrice
      && result.value.roomName == t.rooms[s.roomId].name
      && result.value.capacity == t.rooms[s.roomId].capacity
      && !HasInheritedRow(t.seats, s.roomId)
      && ListsRoom(t.seats, s.roomId, result.value.rows)
    ensures (showtimeId in t.showtimes && t.showtimes[showtimeId].roomId in t.rooms
             && t.showtimes[showtimeId].movieId in t.movies
             && !HasInheritedRow(t.seats, t.showtimes[showtimeId].roomId)) ==> result.Ok?
  {
    if showtimeId !in t.showtimes {
      return Err(BadRequest(NoShowtimeMessage));
    }
    var s := t.showtimes[showtimeId];
    if s.roomId !in t.rooms || s.movieId !in t.movies {
      return Err(BadRequest(RequiredRelationMissing));
    }
    if HasInheritedRow(t.seats, s.roomId) {
      return Err(BadRequest(PushNotAFunction));
    }
    SeatBeforeIsTotalPreorder();
    var ordered := OrderBy(RoomSeats(t.seats, s.roomId), SeatBefore);
    assert RowSorted(ordered) by {
      forall i, j | 0 <= i < j < |ordered|
        ensures StrLessEq(ordered[i].seat.row, ordered[j].seat.row)
      {
        assert SeatBefore(ordered[i], ordered[j]);
      }
    }
    var groups := GroupByRow(ordered);
    GroupByRowOfSorted(ordered);
    ListsRoomOfOrdered(t.seats, s.roomId, ordered, groups);
    var room := t.rooms[s.roomId];
    return Ok(SeatMap(showtimeId, MovieRef(s.movieId, t.movies[s.movieId].title), s.startTime, s.endTime,
                      s.basePrice, s.roomId, room.name, room.capacity, ObjectEntries(groups)));
  }

  /** Where a group's seats sit in the flat list of entries. */
  lemma {:induction false} EntriesAt(groups: seq<RowGroup>, a: int, i: int)
    requires 0 <= a < |groups| && 0 <= i < |groups[a].seats|
    ensures |Entries(groups[..a])| + i < |Entries(groups)|
    ensures Entries(groups)[|Entries(groups[..a])| + i] == Listed(groups[a].row, groups[a].seats[i])
    decreases |groups|
  {
    var n := |groups| - 1;
    if a < n {
      EntriesAt(groups[..n], a, i);
      assert groups[..n][..a] == groups[..a];
    } else {
      assert groups[..n] == groups[..a];
    }
  }

  /** Every entry comes from a seat of some group. */
  lemma {:induction false} EntriesFrom(groups: seq<RowGroup>, k: int)
    requires 0 <= k < |Entries(groups)|
    ensures exists a, i :: 0 <= a < |groups| && 0 <= i < |groups[a].seats|
                           && Entries(groups)[k] == Listed(groups[a].row, groups[a].seats[i])
    decreases |groups|
  {
    var n := |groups| - 1;
    var front := Entries(groups[..n]);
    if k < |front| {
      EntriesFrom(groups[..n], k);
      var a, i :| 0 <= a < n && 0 <= i < |groups[..n][a].seats|
                  && front[k] == Listed(groups[..n][a].row, groups[..n][a].seats[i]);
      assert groups[..n][a] == groups[a];
    } else {
      var i := k - |front|;
      assert Entries(groups)[k] == Listed(groups[n].row, groups[n].seats[i]);
    }
  }

  /** Each seat a group shows is a room seat of the group's row. */
  lemma GroupsShowRoomSeats(seats: map<int, Seat>, roomId: int, ordered: seq<SeatRecord>, groups: seq<RowGroup>)
    requires forall i :: 0 <= i < |ordered| ==> ordered[i] in RoomSeats(seats, roomId)
    requires Entries(groups) == Labelled(ordered)
    ensures forall g, v :: g in groups && v in g.seats ==>
              && v.id in seats && seats[v.id].roomId == roomId && seats[v.id].row == g.row
              && v == ViewOf(SeatRecord(v.id, seats[v.id]))
  {
    forall g, v | g in groups && v in g.seats
      ensures && v.id in seats && seats[v.id].roomId == roomId && seats[v.id].row == g.row
              && v == ViewOf(SeatRecord(v.id, seats[v.id]))
    {
      var a :| 0 <= a < |groups| && groups[a] == g;
      var i :| 0 <= i < |g.seats| && g.seats[i] == v;
      var k := EntryIndex(ordered, groups, a, i);
      assert ordered[k] in RoomSeats(seats, roomId);
    }
  }

  /** Each room seat is shown in a group of its row. */
  lemma GroupsCoverRoom(seats: map<int, Seat>, roomId: int, ordered: seq<SeatRecord>, groups: seq<RowGroup>)
    requires forall x :: x in RoomSeats(seats, roomId) ==> x in ordered
    requires Entries(groups) == Labelled(ordered)
    ensures forall id :: id in seats && seats[id].roomId == roomId ==>
              exists g :: g in groups && g.row == seats[id].row && ViewOf(SeatRecord(id, seats[id])) in g.seats
  {
    forall id | id in seats && seats[id].roomId == roomId
      ensures exists g :: g in groups && g.row == seats[id].row && ViewOf(SeatRecord(id, seats[id])) in g.seats
    {
      var x := SeatRecord(id, seats[id]);
      assert x in RoomSeats(seats, roomId);
      var k :| 0 <= k < |ordered| && ordered[k] == x;
      EntriesFrom(groups, k);
      var a, i :| 0 <= a < |groups| && 0 <= i < |groups[a].seats|
                  && Entries(groups)[k] == Listed(groups[a].row, groups[a].seats[i]);
      assert groups[a].seats[i] == ViewOf(x);
      assert groups[a] in groups;
    }
  }

  /** Within a group the seats are distinct and ordered by seat number. */
  lemma GroupsOrderedWithin(seats: map<int, Seat>, roomId: int, ordered: seq<SeatRecord>, groups: seq<RowGroup>)
    requires forall i :: 0 <= i < |ordered| ==> ordered[i] in RoomSeats(seats, roomId)
    requires forall i, j :: 0 <= i < j < |ordered| ==> ordered[i] != ordered[j]
    requires SortedBy(ordered, SeatBefore)
    requires Entries(groups) == Labelled(ordered)
    ensures forall g, i, j :: g in groups && 0 <= i < j < |g.seats| ==>
              g.seats[i].id != g.seats[j].id && g.seats[i].seatNumber <= g.seats[j].seatNumber
  {
    forall g, i, j | g in groups && 0 <= i < j < |g.seats|
      ensures g.seats[i].id != g.seats[j].id && g.seats[i].seatNumber <= g.seats[j].seatNumber
    {
      var a :| 0 <= a < |groups| && groups[a] == g;
      SeatPairOrdered(seats, roomId, ordered, groups, a, i, j);
    }
  }

  lemma SeatPairOrdered(seats: map<int, Seat>, roomId: int, ordered: seq<SeatRecord>, groups: seq<RowGroup>,
                        a: int, i: int, j: int)
    requires forall i :: 0 <= i < |ordered| ==> ordered[i] in RoomSeats(seats, roomId)
    requires forall i, j :: 0 <= i < j < |ordered| ==> ordered[i] != ordered[j]
    requires SortedBy(ordered, SeatBefore)
    requires Entries(groups) == Labelled(ordered)
    requires 0 <= a < |groups| && 0 <= i < j < |groups[a].seats|
    ensures groups[a].seats[i].id != groups[a].seats[j].id
    ensures groups[a].seats[i].seatNumber <= groups[a].seats[j].seatNumber
  {
    var g := groups[a];
    var p := EntryIndex(ordered, groups, a, i);
    var q := EntryIndex(ordered, groups, a, j);
    var x, y := ordered[p], ordered[q];
    assert x != y && SeatBefore(x, y);
    RoomSeatById(seats, roomId, x, y);
    SeatBeforeInRow(x, y);
  }

  /** The position in the ordered seats of a seat a group shows. */
  lemma EntryIndex(ordered: seq<SeatRecord>, groups: seq<RowGroup>, a: int, i: int) returns (p: int)
    requires Entries(groups) == Labelled(ordered)
    requires 0 <= a < |groups| && 0 <= i < |groups[a].seats|
    ensures 0 <= p < |ordered| && p - i == |Entries(groups[..a])|
    ensures ordered[p].seat.row == groups[a].row && ViewOf(ordered[p]) == groups[a].seats[i]
  {
    EntriesAt(groups, a, i);
    p := |Entries(groups[..a])| + i;
    assert Labelled(ordered)[p] == Label(ordered[p]);
  }

  /** Two seats of the room with the same id are the same record. */
  lemma RoomSeatById(seats: map<int, Seat>, roomId: int, x: SeatRecord, y: SeatRecord)
    requires x in RoomSeats(seats, roomId) && y in RoomSeats(seats, roomId)
    ensures x.id == y.id ==> x == y
  {
  }

  /** Within one row the seat order is by seat number. */
  lemma SeatBeforeInRow(x: SeatRecord, y: SeatRecord)
    requires SeatBefore(x, y) && x.seat.row == y.seat.row
    ensures x.seat.seatNumber <= y.seat.seatNumber
  {
    StrLessIrreflexive(x.seat.row);
  }

  /**
   * The rows of the seat map, `Object.entries` of the groups the reduce
   * builds from the room's ordered seats, list the room.
   */
  lemma ListsRoomOfOrdered(seats: map<int, Seat>, roomId: int, ordered: seq<SeatRecord>, groups: seq<RowGroup>)
    requires forall i :: 0 <= i < |ordered| ==> ordered[i] in RoomSeats(seats, roomId)
    requires forall x :: x in RoomSeats(seats, roomId) ==> x in ordered
    requires forall i, j :: 0 <= i < j < |ordered| ==> ordered[i] != ordered[j]
    requires SortedBy(ordered, SeatBefore)
    requires Entries(groups) == Labelled(ordered)
    requires RowsAscending(groups) && GroupsNonEmpty(groups)
    ensures ListsRoom(seats, roomId, ObjectEntries(groups))
  {
    GroupsShowRoomSeats(seats, roomId, ordered, groups);
    GroupsCoverRoom(seats, roomId, ordered, groups);
    GroupsOrderedWithin(seats, roomId, ordered, groups);
    ObjectEntriesOrder(groups);
    var rows := ObjectEntries(groups);
    forall id | id in seats && seats[id].roomId == roomId
      ensures exists g :: g in rows && g.row == seats[id].row && ViewOf(SeatRecord(id, seats[id])) in g.seats
    {
      var g :| g in groups && g.row == seats[id].row && ViewOf(SeatRecord(id, seats[id])) in g.seats;
      assert g in rows;
    }
  }
}
