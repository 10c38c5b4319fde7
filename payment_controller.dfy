/**
 * The payment endpoints: the ownership check in front of order creation and
 * the status query, and the gateway callback that dispatches to the
 * payment-outcome handlers and answers with a return code.
 */
module PaymentController {
  import opened Results
  import opened Text
  import opened Store
  import opened ZaloPay
  import opened Js

  const InternalServerError := 500
  const DefaultCreateError := "Không thể tạo thanh toán"
  const CheckStatusError := "Không thể kiểm tra trạng thái thanh toán"

  /**
   * A callback after parsing: `type`, and `embed_data.bookingId` from the
   * nested JSON texts, None when either text is not valid JSON.
   */
  datatype Callback = Callback(kind: JsValue, bookingId: Option<JsValue>)

  datatype CallbackReply = CallbackReply(returnCode: JsValue, returnMessage: string)

  const MacRejected := CallbackReply(JsNumber(-1), "mac not equal")
  const CallbackFailed := CallbackReply(JsNumber(-3), "internal server error")

  /** The caller may act on the booking: it exists and is theirs. */
  predicate Owns(t: Tables, bookingId: int, userId: int)
  {
    bookingId in t.bookings && t.bookings[bookingId].userId == userId
  }

  /** Any error of `createPayment` becomes a 500 carrying its message, or the default text when it has none. */
  function Rewrap(e: Error): (r: Error)
    ensures r.HttpError? && r.status == 500
    ensures MessageOf(e) != "" ==> r.message == MessageOf(e)
    ensures MessageOf(e) == "" ==> r.message == DefaultCreateError
  {
    var m := MessageOf(e);
    HttpError(if m == "" then DefaultCreateError else m, InternalServerError)
  }

  /** `POST payment/create/:bookingId` for the user of the token. */
  method CreatePaymentEndpoint(db: Database, env: Environment, clock: Clock, userId: int, bookingId: int,
                               gateway: Result<string>) returns (result: Result<string>)
    modifies db
    ensures !Owns(old(db.tables), bookingId, userId) ==>
              result == Err(HttpError("Unauthorized", 500)) && db.tables == old(db.tables)
    ensures Owns(old(db.tables), bookingId, userId) ==>
              && db.tables == CreatePaymentStep(env, clock, old(db.tables), bookingId, gateway).tables
              && var r := CreatePaymentStep(env, clock, old(db.tables), bookingId, gateway).result;
              && (r.Ok? ==> result == r)
              && (r.Err? ==> result == Err(Rewrap(r.error)))
  {
    if !Owns(db.tables, bookingId, userId) {
      return Err(Rewrap(Unauthorized));
    }
    var r, _ := CreatePayment(db, env, clock, bookingId, gateway);
    if r.Err? {
      return Err(Rewrap(r.error));
    }
    return r;
  }

  /** Signature check of the callback: it accepts everything. */
  function VerifyCallback(cb: Callback): bool
  {
    true
  }

  function Answer(kind: JsValue): CallbackReply
  {
    CallbackReply(kind, if kind == JsNumber(1) then "success" else "failed")
  }

  /** The tables after the callback and its reply. */
  datatype CallbackOutcome = CallbackOutcome(tables: Tables, reply: CallbackReply)

  /**
   * `POST payment/callback`. `type === 1` (a number, strictly) runs the
   * success handler and any other value the failure handler; an error of
   * either, a text that is not JSON or a booking id that is not a number
   * gives -3.
   */
  function CallbackStep(t: Tables, cb: Callback): CallbackOutcome
  {
    if !VerifyCallback(cb) then CallbackOutcome(t, MacRejected)
    else if cb.bookingId.None? || !cb.bookingId.value.JsNumber? then CallbackOutcome(t, CallbackFailed)
    else
      var id := cb.bookingId.value.n;
      var handled := if cb.kind == JsNumber(1) then PaymentSucceeded(t, id) else PaymentFailed(t, id);
      if handled.Err? then CallbackOutcome(t, CallbackFailed)
      else CallbackOutcome(handled.value, Answer(cb.kind))
  }

  method HandleCallback(db: Database, cb: Callback) returns (reply: CallbackReply)
    modifies db
    ensures db.tables == CallbackStep(old(db.tables), cb).tables
    ensures reply == CallbackStep(old(db.tables), cb).reply
  {
    if !VerifyCallback(cb) {
      return MacRejected;
    }
    if cb.bookingId.None? || !cb.bookingId.value.JsNumber? {
      return CallbackFailed;
    }
    var id := cb.bookingId.value.n;
    var handled: Result<()>;
    if cb.kind == JsNumber(1) {
      handled := HandlePaymentSuccess(db, id);
    } else {
      handled := HandlePaymentFailure(db, id);
    }
    if handled.Err? {
      return CallbackFailed;
    }
    return Answer(cb.kind);
  }

  /** The signature check never fails, so no callback is answered with -1 'mac not equal'. */
  lemma MacNeverRejected(t: Tables, cb: Callback)
    ensures CallbackStep(t, cb).reply != MacRejected
  {
    assert "failed" != "mac not equal";
    assert "success" != "mac not equal";
  }

  /**
   * A callback with a numeric booking id runs the success handler exactly
   * when `type` is the number 1, and the failure handler otherwise (for the
   * string "1" or `true` as well); when the handler succeeds the reply echoes
   * `type`, with 'success' exactly when it is the number 1.
   */
  lemma CallbackDispatch(t: Tables, cb: Callback, id: int)
    requires cb.bookingId == Some(JsNumber(id))
    ensures var handled := if cb.kind == JsNumber(1) then PaymentSucceeded(t, id) else PaymentFailed(t, id);
      var o := CallbackStep(t, cb);
      && (handled.Ok? ==>
            (o.tables == handled.value && o.reply.returnCode == cb.kind
             && (o.reply.returnMessage == "success" <==> cb.kind == JsNumber(1))
             && (o.reply.returnMessage == "failed" <==> cb.kind != JsNumber(1))))
      && (handled.Err? ==> o == CallbackOutcome(t, CallbackReply(JsNumber(-3), "internal server error")))
  {
  }

  /** Any failure leaves the tables as they were and answers -3. */
  lemma CallbackFailureChangesNothing(t: Tables, cb: Callback)
    requires CallbackStep(t, cb).reply == CallbackFailed
    ensures CallbackStep(t, cb).tables == t
  {
    assert CallbackFailed != Answer(cb.kind) by {
      assert "internal server error" != "success" && "internal server error" != "failed";
    }
  }

  /** The status query sent to the gateway. */
  datatype QueryRequest = QueryRequest(appId: string, appTransId: string, mac: string)

  datatype StatusCheck = StatusCheck(query: Option<QueryRequest>, result: Result<string>)

  /**
   * `GET payment/check-status/:bookingId`: the same ownership check, then the
   * query with the route's booking id text as `app_trans_id`. Every error,
   * the ownership refusal included, becomes one fixed 500. `gateway` is the
   * gateway's answer.
   */
  function CheckPaymentStatus(env: Environment, t: Tables, userId: int, bookingId: int,
                              gateway: Result<string>): (r: StatusCheck)
    ensures r.query.Some? <==> Owns(t, bookingId, userId)
    ensures r.result.Err? ==> r.result.error == HttpError(CheckStatusError, 500)
    ensures r.result.Ok? ==> Owns(t, bookingId, userId) && r.result == gateway
    ensures Owns(t, bookingId, userId) && gateway.Ok? ==> r.result == gateway
    ensures gateway.Err? ==> r.result.Err?
    ensures r.query.Some? ==>
      && r.query.value.appId == env.appId
      && ParseInt(r.query.value.appTransId) == Some(bookingId)
      && r.query.value.mac == env.hmac(QueryMacInput(env, r.query.value.appTransId), env.key1)
  {
    if !Owns(t, bookingId, userId) then StatusCheck(None, Err(HttpError(CheckStatusError, InternalServerError)))
    else
      var idText := IntToString(bookingId);
      ParseIntOfIntToString(bookingId);
      var q := QueryRequest(env.appId, idText, env.hmac(QueryMacInput(env, idText), env.key1));
      StatusCheck(Some(q), if gateway.Ok? then gateway else Err(HttpError(CheckStatusError, InternalServerError)))
  }

  /**
   * The query names the booking id, while the payment recorded for the order
   * carries `YYMMDD_<random>` as its transaction id: the two never coincide.
   */
  lemma QueryMissesTransaction(env: Environment, clock: Clock, t: Tables, userId: int, bookingId: int,
                               gateway: Result<string>, answer: Result<string>)
    requires Owns(t, bookingId, userId)
    requires CreatePaymentStep(env, clock, t, bookingId, gateway).order.Some?
    ensures CheckPaymentStatus(env, t, userId, bookingId, answer).query.value.appTransId
         != CreatePaymentStep(env, clock, t, bookingId, gateway).order.value.appTransId
  {
    var tx := CreatePaymentStep(env, clock, t, bookingId, gateway).order.value.appTransId;
    assert tx == clock.day + "_" + IntToString(clock.transId);
    assert tx[|clock.day|] == '_';
    IntToStringHasNo(bookingId, '_');
  }
}
