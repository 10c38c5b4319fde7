/**
 * The ZaloPay service: building and sending the order of a booking, the MAC
 * inputs of the order and of the status query, and the two payment-outcome
 * handlers that update payment, booking and seats in one transaction.
 */
module ZaloPay {
  import opened Results
  import opened Text
  import opened Store
  import opened SeatReservation

  /** One line of the order's `item` list. `id` is the booking code (JSON null when unset). */
  datatype OrderItem = OrderItem(id: Option<string>, name: string, price: int, quantity: int)

  /** The order's `embed_data`: the front-end address (omitted when unset) and the booking id. */
  datatype EmbedData = EmbedData(redirectUrl: Option<string>, bookingId: int)

  /**
   * The configuration and the foreign functions the service uses: HMAC-SHA256
   * as `hmac(data, key)` and JSON.stringify of the item list and of the embed
   * data, which are not modelled.
   */
  datatype Environment = Environment(
    appId: string, key1: string, callbackUrl: string, frontendUrl: Option<string>,
    hmac: (string, string) -> string,
    encodeItems: seq<OrderItem> -> string,
    encodeEmbed: EmbedData -> string)

  /**
   * The clock and the random number one call reads: the three Date.now()
   * values (the persisted booking code, the in-memory booking code, app_time),
   * the `YYMMDD` text of the current day, and floor(Math.random() * 1000000).
   */
  datatype Clock = Clock(persistedNow: int, noteNow: int, appTime: int, day: string, transId: int)

  /** The order sent to the gateway. */
  datatype OrderRequest = OrderRequest(
    appId: string, appTransId: string, appUser: string, appTime: int, amount: int,
    description: string, bankCode: string, callbackUrl: string, item: string,
    embedData: string, mac: string)

  const MinimumAmount := 1000
  const BookingNotFound := "Booking not found"
  const AmountTooLow := "Amount must be at least 1000 VND"
  const AnonymousUser := "user123"
  const TicketName := "Movie Ticket"
  const PaymentMethod := "zalopay"

  /** The runtime's message when `payment.payment_id` is read from a null payment. */
  const NoPaymentRecord := "Cannot read properties of null (reading 'payment_id')"

  /** The price a detail adds to a total: its seat's price, 0 when the seat or the price is missing. */
  function DetailPrice(seats: map<int, Seat>, d: BookingDetail): int
  {
    if d.seatId in seats && seats[d.seatId].price.Some? then seats[d.seatId].price.value else 0
  }

  /** The sum over the booking's details of their seats' prices. */
  function BookingTotal(details: seq<BookingDetail>, seats: map<int, Seat>, bookingId: int): int
  {
    if |details| == 0 then 0
    else
      var d := details[|details| - 1];
      BookingTotal(details[..|details| - 1], seats, bookingId)
        + (if d.bookingId == bookingId then DetailPrice(seats, d) else 0)
  }

  /** A new detail adds its seat's price to its own booking's total and nothing to any other. */
  lemma TotalOfAppend(details: seq<BookingDetail>, seats: map<int, Seat>, d: BookingDetail, bookingId: int)
    ensures BookingTotal(details + [d], seats, bookingId)
         == BookingTotal(details, seats, bookingId) + (if d.bookingId == bookingId then DetailPrice(seats, d) else 0)
  {
    assert (details + [d])[..|details|] == details;
  }

  /** Details of other bookings do not count, and with non-negative prices the total is not negative. */
  lemma {:induction false} TotalBounds(details: seq<BookingDetail>, seats: map<int, Seat>, bookingId: int)
    requires forall id :: id in seats && seats[id].price.Some? ==> seats[id].price.value >= 0
    ensures BookingTotal(details, seats, bookingId) >= 0
    ensures (forall k :: 0 <= k < |details| ==> details[k].bookingId != bookingId) ==> BookingTotal(details, seats, bookingId) == 0
    decreases |details|
  {
    if |details| > 0 {
      TotalBounds(details[..|details| - 1], seats, bookingId);
    }
  }

  /** `BK<bookingId>_<now>`. */
  function BookingCode(bookingId: int, now: int): string
  {
    "BK" + IntToString(bookingId) + "_" + IntToString(now)
  }

  /** `${booking_code}` in a template: "null" when the code is unset. */
  function CodeText(code: Option<string>): string
  {
    if code.Some? then code.value else "null"
  }

  /** The string the order's MAC is computed over. */
  function MacInput(r: OrderRequest): string
  {
    Join([r.appId, r.appTransId, r.appUser, IntToString(r.amount), IntToString(r.appTime), r.embedData, r.item], '|')
  }

  /** The MAC input lists app_id, app_trans_id, app_user, amount, app_time, embed_data and item, in that order. */
  lemma MacInputFields(r: OrderRequest)
    requires '|' !in r.appId && '|' !in r.appTransId && '|' !in r.appUser
    requires '|' !in r.embedData && '|' !in r.item
    ensures Split(MacInput(r), '|')
         == [r.appId, r.appTransId, r.appUser, IntToString(r.amount), IntToString(r.appTime), r.embedData, r.item]
  {
    IntToStringHasNo(r.amount, '|');
    IntToStringHasNo(r.appTime, '|');
    SplitJoin([r.appId, r.appTransId, r.appUser, IntToString(r.amount), IntToString(r.appTime), r.embedData, r.item], '|');
  }

  /** The string the status query's MAC is computed over: app_id, app_trans_id and key1. */
  function QueryMacInput(env: Environment, appTransId: string): string
  {
    Join([env.appId, appTransId, env.key1], '|')
  }

  lemma QueryMacInputFields(env: Environment, appTransId: string)
    requires '|' !in env.appId && '|' !in appTransId && '|' !in env.key1
    ensures Split(QueryMacInput(env, appTransId), '|') == [env.appId, appTransId, env.key1]
  {
    SplitJoin([env.appId, appTransId, env.key1], '|');
  }

  /** The user shown to the gateway: the booking user's email, or "user123" when there is none. */
  function AppUser(t: Tables, b: Booking): string
  {
    if b.userId in t.users && t.users[b.userId].email != "" then t.users[b.userId].email else AnonymousUser
  }

  function BuildOrder(env: Environment, clock: Clock, t: Tables, bookingId: int, b: Booking, total: int,
                      code: Option<string>): (r: OrderRequest)
  {
    var appTransId := clock.day + "_" + IntToString(clock.transId);
    var unsigned := OrderRequest(
      env.appId, appTransId, AppUser(t, b), clock.appTime, total,
      "Cinema - Payment for booking #" + CodeText(code), "", env.callbackUrl,
      env.encodeItems([OrderItem(code, TicketName, total, 1)]),
      env.encodeEmbed(EmbedData(env.frontendUrl, bookingId)), "");
    unsigned.(mac := env.hmac(MacInput(unsigned), env.key1))
  }

  /** The tables after `createPayment`, the order it sent (if any), and what it answers. */
  datatype PaymentOutcome = PaymentOutcome(tables: Tables, order: Option<OrderRequest>, result: Result<string>)

  /**
   * `createPayment(bookingId)`. A missing total is computed and written with a
   * fresh booking code before the amount is checked; the in-memory code the
   * order shows is built from a second clock reading. `gateway` is the
   * gateway's answer to the order (its body, or the error of the call).
   */
  function CreatePaymentStep(env: Environment, clock: Clock, t: Tables, bookingId: int,
                             gateway: Result<string>): PaymentOutcome
  {
    if bookingId !in t.bookings then PaymentOutcome(t, None, Err(Failure(BookingNotFound)))
    else
      var b := t.bookings[bookingId];
      var computed := b.totalAmount.None?;
      var total := if computed then BookingTotal(t.details, t.seats, bookingId) else b.totalAmount.value;
      var t1 := if computed then
                  t.(bookings := t.bookings[bookingId := b.(totalAmount := Some(total),
                                                               bookingCode := Some(BookingCode(bookingId, clock.persistedNow)))])
                else t;
      var code := if computed then Some(BookingCode(bookingId, clock.noteNow)) else b.bookingCode;
      if total < MinimumAmount then PaymentOutcome(t1, None, Err(Failure(AmountTooLow)))
      else
        var order := BuildOrder(env, clock, t, bookingId, b, total, code);
        match gateway
        case Err(e) => PaymentOutcome(t1, Some(order), Err(e))
        case Ok(body) =>
          PaymentOutcome(t1.(payments := t1.payments + [Payment(bookingId, total, PaymentMethod, order.appTransId, PaymentPending)]),
                         Some(order), Ok(body))
  }

  method CreatePayment(db: Database, env: Environment, clock: Clock, bookingId: int, gateway: Result<string>)
    returns (result: Result<string>, order: Option<OrderRequest>)
    modifies db
    ensures db.tables == CreatePaymentStep(env, clock, old(db.tables), bookingId, gateway).tables
    ensures result == CreatePaymentStep(env, clock, old(db.tables), bookingId, gateway).result
    ensures order == CreatePaymentStep(env, clock, old(db.tables), bookingId, gateway).order
  {
    var t := db.tables;
    if bookingId !in t.bookings {
      return Err(Failure(BookingNotFound)), None;
    }
    var b := t.bookings[bookingId];
    var total: int;
    var code: Option<string>;
    if b.totalAmount.None? {
      total := BookingTotal(t.details, t.seats, bookingId);
      db.tables := db.tables.(bookings := db.tables.bookings[bookingId := b.(totalAmount := Some(total),
                                                bookingCode := Some(BookingCode(bookingId, clock.persistedNow)))]);
      code := Some(BookingCode(bookingId, clock.noteNow));
    } else {
      total := b.totalAmount.value;
      code := b.bookingCode;
    }
    if total < MinimumAmount {
      return Err(Failure(AmountTooLow)), None;
    }
    var request := BuildOrder(env, clock, t, bookingId, b, total, code);
    order := Some(request);
    if gateway.Err? {
      return Err(gateway.error), order;
    }
    db.tables := db.tables.(payments := db.tables.payments
                                        + [Payment(bookingId, total, PaymentMethod, request.appTransId, PaymentPending)]);
    result := Ok(gateway.value);
  }

  /** A missing booking is refused before anything is written or sent. */
  lemma CreatePaymentNeedsBooking(env: Environment, clock: Clock, t: Tables, bookingId: int, gateway: Result<string>)
    requires bookingId !in t.bookings
    ensures CreatePaymentStep(env, clock, t, bookingId, gateway) == PaymentOutcome(t, None, Err(Failure("Booking not found")))
  {
  }

  /** The total the call settles on: the stored one, or the sum of the seat prices when none is stored. */
  function SettledTotal(t: Tables, bookingId: int): int
    requires bookingId in t.bookings
  {
    var b := t.bookings[bookingId];
    if b.totalAmount.None? then BookingTotal(t.details, t.seats, bookingId) else b.totalAmount.value
  }

  /**
   * When no total is stored, the sum of the booking's seat prices and a code
   * `BK<id>_…` are written whatever happens after, even when the amount is
   * then refused or the gateway fails; no other booking changes.
   */
  lemma CreatePaymentWritesTotal(env: Environment, clock: Clock, t: Tables, bookingId: int, gateway: Result<string>)
    requires bookingId in t.bookings && t.bookings[bookingId].totalAmount.None?
    ensures var r := CreatePaymentStep(env, clock, t, bookingId, gateway).tables;
      && r.bookings.Keys == t.bookings.Keys
      && r.bookings[bookingId].totalAmount == Some(BookingTotal(t.details, t.seats, bookingId))
      && r.bookings[bookingId].bookingCode == Some("BK" + IntToString(bookingId) + "_" + IntToString(clock.persistedNow))
      && (forall k :: k in t.bookings && k != bookingId ==> r.bookings[k] == t.bookings[k])
  {
  }

  /** A settled total below 1000 is refused: nothing is sent and no payment is recorded. */
  lemma CreatePaymentRefusesSmallAmount(env: Environment, clock: Clock, t: Tables, bookingId: int, gateway: Result<string>)
    requires bookingId in t.bookings && SettledTotal(t, bookingId) < 1000
    ensures var o := CreatePaymentStep(env, clock, t, bookingId, gateway);
      && o.result == Err(Failure("Amount must be at least 1000 VND"))
      && o.order == None
      && o.tables.payments == t.payments
  {
  }

  /**
   * The order sent for an accepted amount: the amount and the single item's
   * price are the total, the item's id is the code just made from the clock
   * when the total was computed and the stored code otherwise, `app_user` is
   * the email or "user123", the MAC is the
   * HMAC under key1 of the MAC input, and `app_trans_id` is `YYMMDD_<random>`.
   * When the gateway answers, exactly one pending 'zalopay' payment with that
   * transaction id and the total is appended.
   */
  lemma CreatePaymentOrder(env: Environment, clock: Clock, t: Tables, bookingId: int, gateway: Result<string>)
    requires bookingId in t.bookings && SettledTotal(t, bookingId) >= 1000
    ensures var o := CreatePaymentStep(env, clock, t, bookingId, gateway);
      var total := SettledTotal(t, bookingId);
      var b := t.bookings[bookingId];
      && o.order.Some?
      && o.order.value.amount == total
      && o.order.value.appId == env.appId
      && o.order.value.appTransId == clock.day + "_" + IntToString(clock.transId)
      && o.order.value.appTime == clock.appTime
      && o.order.value.callbackUrl == env.callbackUrl
      && o.order.value.bankCode == ""
      && (b.userId in t.users && t.users[b.userId].email != "" ==> o.order.value.appUser == t.users[b.userId].email)
      && (b.userId !in t.users || t.users[b.userId].email == "" ==> o.order.value.appUser == "user123")
      && o.order.value.embedData == env.encodeEmbed(EmbedData(env.frontendUrl, bookingId))
      && o.order.value.item
           == env.encodeItems([OrderItem(if b.totalAmount.None? then Some(BookingCode(bookingId, clock.noteNow)) else b.bookingCode,
                                         "Movie Ticket", total, 1)])
      && o.order.value.mac == env.hmac(MacInput(o.order.value.(mac := "")), env.key1)
      && MacInput(o.order.value) == MacInput(o.order.value.(mac := ""))
      && (gateway.Err? ==> o.result == gateway && |o.tables.payments| == |t.payments|)
      && (gateway.Ok? ==>
            (o.result == gateway
             && o.tables.payments == t.payments + [Payment(bookingId, total, "zalopay", o.order.value.appTransId, PaymentPending)]))
  {
    var b := t.bookings[bookingId];
    var total := SettledTotal(t, bookingId);
    var code := if b.totalAmount.None? then Some(BookingCode(bookingId, clock.noteNow)) else b.bookingCode;
    var o := CreatePaymentStep(env, clock, t, bookingId, gateway);
    assert o.order == Some(BuildOrder(env, clock, t, bookingId, b, total, code));
    BuildOrderFields(env, clock, t, bookingId, b, total, code);
  }

  /** The fields of a built order, and its MAC over the unsigned order. */
  lemma BuildOrderFields(env: Environment, clock: Clock, t: Tables, bookingId: int, b: Booking, total: int,
                         code: Option<string>)
    ensures var r := BuildOrder(env, clock, t, bookingId, b, total, code);
      && r.amount == total && r.appId == env.appId && r.appTime == clock.appTime
      && r.appTransId == clock.day + "_" + IntToString(clock.transId)
      && r.callbackUrl == env.callbackUrl && r.bankCode == "" && r.appUser == AppUser(t, b)
      && r.embedData == env.encodeEmbed(EmbedData(env.frontendUrl, bookingId))
      && r.item == env.encodeItems([OrderItem(code, "Movie Ticket", total, 1)])
      && r.mac == env.hmac(MacInput(r.(mac := "")), env.key1)
      && MacInput(r) == MacInput(r.(mac := ""))
  {
  }

  lemma BookingCodeInjective(id: int, a: int, b: int)
    requires a != b
    ensures BookingCode(id, a) != BookingCode(id, b)
  {
    var p := "BK" + IntToString(id) + "_";
    if BookingCode(id, a) == BookingCode(id, b) {
      assert BookingCode(id, a) == p + IntToString(a) && BookingCode(id, b) == p + IntToString(b);
      assert IntToString(a) == (p + IntToString(a))[|p|..];
      assert IntToString(b) == (p + IntToString(b))[|p|..];
      ParseIntOfIntToString(a);
      ParseIntOfIntToString(b);
    }
  }

  /**
   * When the total is computed, the code the order's description shows is
   * built from a second clock reading, so it differs from the stored code as
   * soon as the two readings differ.
   */
  lemma DescribedCodeMayDiffer(env: Environment, clock: Clock, t: Tables, bookingId: int, gateway: Result<string>)
    requires bookingId in t.bookings && t.bookings[bookingId].totalAmount.None?
    requires SettledTotal(t, bookingId) >= 1000 && clock.persistedNow != clock.noteNow
    ensures var o := CreatePaymentStep(env, clock, t, bookingId, gateway);
      && o.order.Some?
      && o.order.value.description == "Cinema - Payment for booking #" + BookingCode(bookingId, clock.noteNow)
      && o.tables.bookings[bookingId].bookingCode == Some(BookingCode(bookingId, clock.persistedNow))
      && BookingCode(bookingId, clock.noteNow) != BookingCode(bookingId, clock.persistedNow)
  {
    BookingCodeInjective(bookingId, clock.noteNow, clock.persistedNow);
  }

  /** Position of the first payment of the booking (`findFirst` with no order), or |payments|. */
  function FirstPaymentOf(payments: seq<Payment>, bookingId: int): (i: nat)
    ensures i <= |payments|
    ensures i < |payments| ==> payments[i].bookingId == bookingId
    ensures forall j :: 0 <= j < i ==> payments[j].bookingId != bookingId
  {
    if |payments| == 0 then 0
    else if payments[0].bookingId == bookingId then 0
    else 1 + FirstPaymentOf(payments[1..], bookingId)
  }

  /** The seats with some booking detail of the booking. */
  function SeatsOfBooking(details: seq<BookingDetail>, bookingId: int): (s: set<int>)
    ensures forall id :: id in s <==> exists d :: d in details && d.bookingId == bookingId && d.seatId == id
  {
    set d | d in details && d.bookingId == bookingId :: d.seatId
  }

  /**
   * `handlePaymentSuccess`: the booking's first payment is completed, the
   * booking confirmed and paid, and its seats booked, all in one transaction.
   * With no payment the call fails before the transaction; with no booking
   * the transaction fails and nothing is written.
   */
  function PaymentSucceeded(t: Tables, bookingId: int): Result<Tables>
  {
    var p := FirstPaymentOf(t.payments, bookingId);
    if p == |t.payments| then Err(Failure(NoPaymentRecord))
    else if bookingId !in t.bookings then Err(Failure(RecordToUpdateNotFound))
    else
      var b := t.bookings[bookingId];
      Ok(t.(payments := t.payments[p := t.payments[p].(status := Completed)],
            bookings := t.bookings[bookingId := b.(bookingStatus := Confirmed, paymentStatus := Completed)],
            seats := WithStatus(t.seats, SeatsOfBooking(t.details, bookingId), Booked)))
  }

  /** `handlePaymentFailure`: the first payment fails and the booking is cancelled; seats are untouched. */
  function PaymentFailed(t: Tables, bookingId: int): Result<Tables>
  {
    var p := FirstPaymentOf(t.payments, bookingId);
    if p == |t.payments| then Err(Failure(NoPaymentRecord))
    else if bookingId !in t.bookings then Err(Failure(RecordToUpdateNotFound))
    else
      var b := t.bookings[bookingId];
      Ok(t.(payments := t.payments[p := t.payments[p].(status := Failed)],
            bookings := t.bookings[bookingId := b.(bookingStatus := Cancelled, paymentStatus := Failed)]))
  }

  method HandlePaymentSuccess(db: Database, bookingId: int) returns (r: Result<()>)
    modifies db
    ensures PaymentSucceeded(old(db.tables), bookingId).Ok? ==>
              r == Ok(()) && db.tables == PaymentSucceeded(old(db.tables), bookingId).value
    ensures PaymentSucceeded(old(db.tables), bookingId).Err? ==>
              r == Err(PaymentSucceeded(old(db.tables), bookingId).error) && db.tables == old(db.tables)
  {
    var outcome := PaymentSucceeded(db.tables, bookingId);
    if outcome.Err? {
      return Err(outcome.error);
    }
    db.tables := outcome.value;
    return Ok(());
  }

  method HandlePaymentFailure(db: Database, bookingId: int) returns (r: Result<()>)
    modifies db
    ensures PaymentFailed(old(db.tables), bookingId).Ok? ==>
              r == Ok(()) && db.tables == PaymentFailed(old(db.tables), bookingId).value
    ensures PaymentFailed(old(db.tables), bookingId).Err? ==>
              r == Err(PaymentFailed(old(db.tables), bookingId).error) && db.tables == old(db.tables)
  {
    var outcome := PaymentFailed(db.tables, bookingId);
    if outcome.Err? {
      return Err(outcome.error);
    }
    db.tables := outcome.value;
    return Ok(());
  }

  /** The handlers need a payment of the booking; without one they fail and write nothing. */
  lemma HandlersNeedPayment(t: Tables, bookingId: int)
    ensures PaymentSucceeded(t, bookingId).Err? <==>
            (forall k :: 0 <= k < |t.payments| ==> t.payments[k].bookingId != bookingId) || bookingId !in t.bookings
    ensures PaymentFailed(t, bookingId).Err? <==>
            (forall k :: 0 <= k < |t.payments| ==> t.payments[k].bookingId != bookingId) || bookingId !in t.bookings
  {
  }

  /**
   * A success changes exactly the first payment of the booking (to completed),
   * the booking (confirmed and paid) and the seats linked to it (booked).
   */
  lemma SuccessEffect(t: Tables, bookingId: int)
    requires PaymentSucceeded(t, bookingId).Ok?
    ensures var r := PaymentSucceeded(t, bookingId).value;
      var p := FirstPaymentOf(t.payments, bookingId);
      && |r.payments| == |t.payments|
      && r.payments[p] == t.payments[p].(status := Completed)
      && (forall k :: 0 <= k < |t.payments| && k != p ==> r.payments[k] == t.payments[k])
      && r.bookings == t.bookings[bookingId := t.bookings[bookingId].(bookingStatus := Confirmed, paymentStatus := Completed)]
      && r.seats.Keys == t.seats.Keys
      && (forall id :: id in t.seats ==>
            r.seats[id] == if (exists d :: d in t.details && d.bookingId == bookingId && d.seatId == id)
                           then t.seats[id].(status := Booked) else t.seats[id])
      && r == t.(payments := r.payments, bookings := r.bookings, seats := r.seats)
  {
  }

  lemma {:induction false} FirstPaymentOfStatusChange(payments: seq<Payment>, bookingId: int, p: int, s: PaymentStatus)
    requires 0 <= p < |payments|
    ensures FirstPaymentOf(payments[p := payments[p].(status := s)], bookingId) == FirstPaymentOf(payments, bookingId)
  {
    var q := payments[p := payments[p].(status := s)];
    assert forall k :: 0 <= k < |q| ==> q[k].bookingId == payments[k].bookingId;
  }

  /** Handling the same success twice leaves the tables as handling it once. */
  lemma SuccessIdempotent(t: Tables, bookingId: int)
    requires PaymentSucceeded(t, bookingId).Ok?
    ensures PaymentSucceeded(PaymentSucceeded(t, bookingId).value, bookingId) == PaymentSucceeded(t, bookingId)
  {
    var r := PaymentSucceeded(t, bookingId).value;
    var p := FirstPaymentOf(t.payments, bookingId);
    FirstPaymentOfStatusChange(t.payments, bookingId, p, Completed);
    var r2 := PaymentSucceeded(r, bookingId).value;
    assert r2.payments == r.payments;
    assert r2.seats == r.seats;
    assert r2.bookings == r.bookings;
  }

  /** A failure changes the first payment (to failed) and the booking (cancelled), and no seat. */
  lemma FailureEffect(t: Tables, bookingId: int)
    requires PaymentFailed(t, bookingId).Ok?
    ensures var r := PaymentFailed(t, bookingId).value;
      var p := FirstPaymentOf(t.payments, bookingId);
      && |r.payments| == |t.payments|
      && r.payments[p] == t.payments[p].(status := Failed)
      && (forall k :: 0 <= k < |t.payments| && k != p ==> r.payments[k] == t.payments[k])
      && r.bookings == t.bookings[bookingId := t.bookings[bookingId].(bookingStatus := Cancelled, paymentStatus := Failed)]
      && r.seats == t.seats
      && r == t.(payments := r.payments, bookings := r.bookings)
  {
  }

  /**
   * Neither handler looks at the booking's status: a failure after a success
   * leaves a cancelled, failed booking whose seats stay booked.
   */
  lemma FailureAfterSuccess(t: Tables, bookingId: int, seatId: int)
    requires PaymentSucceeded(t, bookingId).Ok?
    requires seatId in t.seats && exists d :: d in t.details && d.bookingId == bookingId && d.seatId == seatId
    ensures var s := PaymentSucceeded(t, bookingId).value;
      && PaymentFailed(s, bookingId).Ok?
      && PaymentFailed(s, bookingId).value.bookings[bookingId].bookingStatus == Cancelled
      && PaymentFailed(s, bookingId).value.bookings[bookingId].paymentStatus == Failed
      && PaymentFailed(s, bookingId).value.seats[seatId].status == Booked
  {
    var p := FirstPaymentOf(t.payments, bookingId);
    FirstPaymentOfStatusChange(t.payments, bookingId, p, Completed);
  }
}
