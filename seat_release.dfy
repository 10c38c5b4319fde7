/**
 * The handler of the delayed 'release-seats' job: the payload's seats become
 * available again and the showtime's counter goes back up.
 */
module SeatRelease {
  import opened Store
  import opened SeatReservation

  /**
   * The tables after the job ran: every seat of the payload is available,
   * whatever its status was, and the showtime's counter is incremented by
   * the length of the id list. When the showtime does not exist the counter
   * update fails, but the seats were already released.
   */
  function Release(t: Tables, job: Job): Tables
  {
    var freed := t.(seats := WithStatus(t.seats, Elems(job.seatIds), Available));
    if job.showtimeId in t.showtimes then
      freed.(showtimes := AddAvailable(t.showtimes, job.showtimeId, |job.seatIds|))
    else freed
  }

  /** Whether the handler catches and logs an error (the counter update found no showtime). */
  predicate ReleaseLogsError(t: Tables, job: Job)
  {
    job.showtimeId !in t.showtimes
  }

  /** `handleReleaseSeat`: errors are logged, never passed on. */
  method HandleReleaseSeat(db: Database, job: Job) returns (logged: bool)
    modifies db
    ensures db.tables == Release(old(db.tables), job)
    ensures logged == ReleaseLogsError(old(db.tables), job)
  {
    db.tables := db.tables.(seats := WithStatus(db.tables.seats, Elems(job.seatIds), Available));
    if job.showtimeId !in db.tables.showtimes {
      return true;
    }
    db.tables := db.tables.(showtimes := AddAvailable(db.tables.showtimes, job.showtimeId, |job.seatIds|));
    return false;
  }

  /**
   * The release does not look at the status: pending and booked seats alike
   * become available. Only the listed seats and the one showtime change.
   */
  lemma ReleaseEffect(t: Tables, job: Job)
    ensures var r := Release(t, job);
      && r.seats.Keys == t.seats.Keys
      && (forall id :: id in t.seats && id in job.seatIds ==> r.seats[id] == t.seats[id].(status := Available))
      && (forall id :: id in t.seats && id !in job.seatIds ==> r.seats[id] == t.seats[id])
      && r.showtimes.Keys == t.showtimes.Keys
      && (job.showtimeId in t.showtimes ==>
            r.showtimes[job.showtimeId].availableSeats == t.showtimes[job.showtimeId].availableSeats + |job.seatIds|
            && r.showtimes[job.showtimeId] == t.showtimes[job.showtimeId].(availableSeats := r.showtimes[job.showtimeId].availableSeats))
      && (forall k :: k in t.showtimes && k != job.showtimeId ==> r.showtimes[k] == t.showtimes[k])
      && (ReleaseLogsError(t, job) ==> r.showtimes == t.showtimes)
      && r == t.(seats := r.seats, showtimes := r.showtimes)
  {
    var freed := t.(seats := WithStatus(t.seats, Elems(job.seatIds), Available));
    if job.showtimeId in t.showtimes {
      assert Release(t, job) == freed.(showtimes := AddAvailable(t.showtimes, job.showtimeId, |job.seatIds|));
    } else {
      assert Release(t, job) == freed;
    }
  }

  /** A booked seat named by a job that is still queued becomes available when the job runs. */
  lemma ReleaseFreesBookedSeat(t: Tables, job: Job, id: int)
    requires id in job.seatIds && id in t.seats && t.seats[id].status == Booked
    ensures Release(t, job).seats[id].status == Available
  {
    ReleaseEffect(t, job);
  }

  /**
   * A successful hold followed by its release job gives back exactly the
   * tables before the hold: the seats were available and are again, and the
   * counter is back to its value.
   */
  lemma ReleaseUndoesReserve(t: Tables, jobs: seq<DelayedJob>, showtimeId: int, seatIds: seq<int>)
    requires Reserve(t, jobs, showtimeId, seatIds).result.Ok?
    ensures Release(Reserve(t, jobs, showtimeId, seatIds).tables, Job(seatIds, showtimeId)) == t
  {
    var o := Reserve(t, jobs, showtimeId, seatIds);
    var r := Release(o.tables, Job(seatIds, showtimeId));
    assert r.seats == t.seats by {
      forall id | id in t.seats
        ensures r.seats[id] == t.seats[id]
      {
        if id in seatIds {
          assert t.seats[id].status == Available;
        }
      }
    }
    assert r.showtimes == t.showtimes;
  }

  /**
   * Confirming with the seat ids in another order than the hold leaves the
   * hold's job in the queue; when it runs, the seats just booked are
   * available again.
   */
  lemma ReorderedConfirmIsUndone(t: Tables, jobs: seq<DelayedJob>, showtimeId: int,
                                 heldIds: seq<int>, paidIds: seq<int>, id: int)
    requires Reserve(t, jobs, showtimeId, heldIds).result.Ok?
    requires multiset(paidIds) == multiset(heldIds) && paidIds != heldIds
    requires id in heldIds && id in t.seats
    ensures var held := Reserve(t, jobs, showtimeId, heldIds);
      var remaining := WithoutMatching(held.jobs, showtimeId, paidIds);
      var paid := Confirm(held.tables, paidIds);
      && ReleaseJob(heldIds, showtimeId) in remaining
      && paid.seats[id].status == Booked
      && Release(paid, Job(heldIds, showtimeId)).seats[id].status == Available
  {
    var held := Reserve(t, jobs, showtimeId, heldIds);
    assert ReleaseJob(heldIds, showtimeId) in held.jobs;
    ReorderedHoldSurvives(held.jobs, showtimeId, paidIds, heldIds);
    assert id in multiset(heldIds);
    assert id in paidIds;
    ReleaseFreesBookedSeat(Confirm(held.tables, paidIds), Job(heldIds, showtimeId), id);
  }
}
