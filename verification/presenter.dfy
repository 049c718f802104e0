/**
 * The read paths over the session store (webhook/views.py): the payment page
 * opened from a request token (`payment_view`), the status poll
 * (`check_payment_status`) and the payment information API
 * (`get_payment_info`). Each is a pure function of the store and the clock
 * `now`; the ones that may write return the new store.
 */
module Presenter {

  import opened Base
  import opened Text
  import opened Json
  import opened Models
  import RequestToken

  // ---------------------------------------------------------------------------
  // Shared pieces
  // ---------------------------------------------------------------------------

  /** Python's `int(x)` on an order id: an ASCII digit string, an int or a bool. */
  function PyInt(v: Value): (r: Option<int>)
    ensures v.JStr? ==> (r.Some? <==> IsDigitString(v.s))
    ensures v.JStr? && r.Some? ==> r.value == DigitsValue(v.s)
  {
    match v
    case JStr(s) => if IsDigitString(s) then Some(DigitsValue(s)) else None
    case _ => IntView(v)
  }

  /** `str(int(order_id) + 1)`: where a donation split of order `n` is filed. */
  function DonateKey(n: int): string {
    IntToString(n + 1)
  }

  /** The paid donation split of order `n`, if there is one. */
  function PaidDonation(store: Store, n: int): (r: Option<Session>)
    ensures r.Some? <==> DonateKey(n) in store && store[DonateKey(n)].status == Paid
    ensures r.Some? ==> r.value == store[DonateKey(n)]
  {
    var d := DonateKey(n);
    if d in store && store[d].status == Paid then Some(store[d]) else None
  }

  /** `{return_url}?order_id=…&status=success&type=…&amount=…`. */
  function SuccessUrl(s: Session, orderId: string): string {
    s.returnUrl + "?order_id=" + orderId + "&status=success&type=" + s.paymentType
      + "&amount=" + IntToString(s.amount)
  }

  /** `&donate_order_id=…&donate_amount=…`. */
  function DonateSuffix(donateId: string, d: Session): string {
    "&donate_order_id=" + donateId + "&donate_amount=" + IntToString(d.amount)
  }

  /** The success redirect of a paid session, with the donation split appended when it is paid. */
  function PaidRedirect(store: Store, s: Session, orderId: string, n: int): (url: string)
    ensures SuccessUrl(s, orderId) <= url
    // The donation parameters are appended exactly when session `n + 1` exists and is paid.
    ensures url == SuccessUrl(s, orderId) <==> !(DonateKey(n) in store && store[DonateKey(n)].status == Paid)
    ensures DonateKey(n) in store && store[DonateKey(n)].status == Paid ==>
              url[|SuccessUrl(s, orderId)|..] == DonateSuffix(DonateKey(n), store[DonateKey(n)])
  {
    match PaidDonation(store, n)
    case None => SuccessUrl(s, orderId)
    case Some(d) => SuccessUrl(s, orderId) + DonateSuffix(DonateKey(n), d)
  }

  /** `{return_url}?order_id=…&status=cancelled`. */
  function CancelUrl(s: Session, orderId: string): string {
    s.returnUrl + "?order_id=" + orderId + "&status=cancelled"
  }

  // ---------------------------------------------------------------------------
  // check_payment_status
  // ---------------------------------------------------------------------------

  datatype PollReply =
    | PollNotFound                             // 404
    | PollFailed                               // 500: `int(order_id)` raised
    | PollStatus(orderId: string, status: Status, amount: int, returnUrl: Option<string>)

  /** `check_payment_status(order_id)`. */
  function Poll(store: Store, orderId: string, now: int): (out: (PollReply, Store))
    // The only write ever made: a pending session past its expiry becomes expired.
    ensures out.1 == store
         || (orderId in store && store[orderId].status == Pending && IsExpired(store[orderId], now)
             && out.1 == store[orderId := store[orderId].(status := Expired)])
    ensures out.0.PollNotFound? <==> orderId !in store
    ensures out.0.PollFailed? ==> store[orderId].status == Paid && !IsDigitString(orderId)
    ensures out.0.PollStatus? ==> orderId in store && out.0.orderId == orderId
                                  && out.0.amount == store[orderId].amount
  {
    if orderId !in store then (PollNotFound, store)
    else
      var s := store[orderId];
      if s.status == Paid then
        match ParseNat(orderId)
        case None => (PollFailed, store)
        case Some(n) => (PollStatus(orderId, Paid, s.amount, Some(PaidRedirect(store, s, orderId, n))), store)
      else if IsExpired(s, now) && s.status == Pending then
        (PollStatus(orderId, Expired, s.amount, Some(CancelUrl(s, orderId))),
         store[orderId := s.(status := Expired)])
      else
        (PollStatus(orderId, s.status, s.amount, None), store)
  }

  /**
   * A paid session polls to the success redirect, with the donation
   * parameters appended exactly when session `order_id + 1` exists and is paid.
   */
  lemma PollPaid(store: Store, orderId: string, now: int)
    requires orderId in store && store[orderId].status == Paid && IsDigitString(orderId)
    ensures var d := DonateKey(DigitsValue(orderId));
      var s := store[orderId];
      var (reply, next) := Poll(store, orderId, now);
      && next == store
      && reply.PollStatus? && reply.status == Paid && reply.returnUrl.Some?
      && (d in store && store[d].status == Paid ==>
            reply.returnUrl.value == SuccessUrl(s, orderId) + DonateSuffix(d, store[d]))
      && (!(d in store && store[d].status == Paid) ==> reply.returnUrl.value == SuccessUrl(s, orderId))
  {
  }

  /** A pending session past its expiry is stored as expired and gets the cancel URL. */
  lemma PollExpiresPending(store: Store, orderId: string, now: int)
    requires orderId in store && store[orderId].status == Pending && IsExpired(store[orderId], now)
    ensures var (reply, next) := Poll(store, orderId, now);
      && next == store[orderId := store[orderId].(status := Expired)]
      && reply == PollStatus(orderId, Expired, store[orderId].amount, Some(CancelUrl(store[orderId], orderId)))
  {
  }

  /** Every other session is reported as stored, with no write and no URL. */
  lemma PollOtherwiseReadOnly(store: Store, orderId: string, now: int)
    requires orderId in store && store[orderId].status != Paid
    requires !(store[orderId].status == Pending && IsExpired(store[orderId], now))
    ensures Poll(store, orderId, now) == (PollStatus(orderId, store[orderId].status, store[orderId].amount, None), store)
  {
  }

  // ---------------------------------------------------------------------------
  // get_payment_info
  // ---------------------------------------------------------------------------

  datatype InfoReply =
    | InfoNotFound                             // 404
    | InfoFailed                               // 500: `int(order_id)` raised
    | Info(orderId: string, amount: int, description: string, status: Status,
           paymentType: string, username: Option<string>, createdAt: int, expiredAt: int,
           paidAt: Option<int>, donateSplit: Option<(string, int)>)

  /** `get_payment_info(order_id)`: a reply only; the endpoint never writes. */
  function PaymentInfo(store: Store, orderId: string): (r: InfoReply)
    ensures r.InfoNotFound? <==> orderId !in store
    ensures r.InfoFailed? ==> store[orderId].status == Paid && !IsDigitString(orderId)
    ensures r.Info? ==> orderId in store && r.orderId == orderId
    ensures r.Info? ==> var s := store[orderId];
      && r.amount == s.amount && r.description == s.description && r.status == s.status
      && r.paymentType == s.paymentType && r.username == s.username && r.paidAt == s.paidAt
      && r.createdAt == s.createdAt && r.expiredAt == s.expiredAt
  {
    if orderId !in store then InfoNotFound
    else
      var s := store[orderId];
      var base := Info(orderId, s.amount, s.description, s.status, s.paymentType, s.username,
                       s.createdAt, s.expiredAt, s.paidAt, None);
      if s.status != Paid then base
      else
        match ParseNat(orderId)
        case None => InfoFailed
        case Some(n) =>
          match PaidDonation(store, n)
          case None => base
          case Some(d) => base.(donateSplit := Some((DonateKey(n), d.amount)))
  }

  /**
   * `donate_split` is present exactly when the session and session
   * `order_id + 1` are both paid, and then names that session and its amount.
   */
  lemma DonateSplitIff(store: Store, orderId: string)
    requires orderId in store && IsDigitString(orderId)
    ensures var d := DonateKey(DigitsValue(orderId));
      var r := PaymentInfo(store, orderId);
      && r.Info?
      && (r.donateSplit.Some? <==> store[orderId].status == Paid && d in store && store[d].status == Paid)
      && (r.donateSplit.Some? ==> r.donateSplit.value == (d, store[d].amount))
  {
  }

  /** The poll's donation parameters and the info's `donate_split` always agree. */
  lemma PollAgreesWithInfo(store: Store, orderId: string, now: int)
    requires orderId in store && store[orderId].status == Paid && IsDigitString(orderId)
    ensures var n := DigitsValue(orderId);
      var url := Poll(store, orderId, now).0.returnUrl.value;
      var split := PaymentInfo(store, orderId).donateSplit;
      && (split.None? ==> url == SuccessUrl(store[orderId], orderId))
      && (split.Some? ==> url == SuccessUrl(store[orderId], orderId) + DonateSuffix(split.value.0, store[split.value.0])
                          && split.value.1 == store[split.value.0].amount)
  {
  }

  // ---------------------------------------------------------------------------
  // payment_view
  // ---------------------------------------------------------------------------

  datatype ErrorCode = MissingSignature | InvalidSignature | InternalError

  /** What the payment page endpoint renders. */
  datatype Page =
    | ErrorPage(code: ErrorCode)
    | ExpiredPage(orderId: string, createdAt: int, expiredAt: int, expiredMinutes: int,
                  baseUrl: Option<string>)
    | RedirectTo(url: string)
    | PaymentPage(orderId: string, amount: int, description: string, qrUrl: string,
                  expiredAt: int, createdAt: int, timeRemaining: nat,
                  accountNumber: string, returnUrl: string)

  /** The key Django looks `order_id` up by: the `str()` of a scalar, nothing for `None`. */
  function OrderKey(v: Value): (r: Option<string>)
    ensures v.JStr? ==> r == Some(v.s)
    ensures v.JInt? ==> r == Some(IntToString(v.n))
    ensures v.JNull? ==> r.None?
  {
    match v
    case JStr(s) => Some(s)
    case JInt(n) => Some(IntToString(n))
    case JBool(b) => Some(if b then "True" else "False")
    case _ => None
  }

  /** A text column of the new session: a string, or a failure. */
  function TextColumn(v: Value): Option<string> {
    if v.JStr? then Some(v.s) else None
  }

  /** A nullable column: `None` for null, else the decoded value or a failure. */
  function NullableText(v: Value): Option<Option<string>> {
    match v
    case JNull => Some(None)
    case JStr(s) => Some(Some(s))
    case _ => None
  }

  function NullableInt(v: Value): Option<Option<int>> {
    if v.JNull? then Some(None)
    else match IntView(v)
      case None => None
      case Some(n) => Some(Some(n))
  }

  /** The session the token's `defaults` describe; absent when a NOT NULL column would be null or mistyped. */
  function SessionFromToken(key: string, data: seq<Field>, expiredAt: int, now: int): (r: Option<Session>)
    ensures r.Some? ==> r.value.orderId == key && r.value.status == Pending
                        && r.value.transactionId.None? && r.value.paidAt.None?
                        && r.value.createdAt == now && r.value.expiredAt == expiredAt
  {
    var amount := IntView(Get(data, "amount", JNull));
    var description := TextColumn(Get(data, "description", JNull));
    var account := TextColumn(Get(data, "account_number", JNull));
    var returnUrl := TextColumn(Get(data, "return_url", JNull));
    var username := NullableText(Get(data, "username", JNull));
    var paymentType := TextColumn(Get(data, "type", JNull));
    var perMonth := NullableInt(Get(data, "per_month_price", JNull));
    if amount.None? || description.None? || account.None? || returnUrl.None?
       || username.None? || paymentType.None? || perMonth.None? then None
    else
      Some(NewSession(key, amount.value, description.value, account.value, returnUrl.value,
                      username.value, paymentType.value, perMonth.value, expiredAt, now))
  }

  /** `get_or_create(order_id=key, defaults=…)`: an existing session is returned untouched. */
  function GetOrCreate(store: Store, key: string, data: seq<Field>, expiredAt: int, now: int)
    : (r: Option<(Session, Store)>)
    ensures key in store ==> r == Some((store[key], store))
    ensures key !in store && r.Some? ==>
              r.value.1 == store[key := r.value.0] && SessionFromToken(key, data, expiredAt, now) == Some(r.value.0)
  {
    if key in store then Some((store[key], store))
    else
      match SessionFromToken(key, data, expiredAt, now)
      case None => None
      case Some(s) => Some((s, store[key := s]))
  }

  /** `int(seconds / 60)`: the quotient truncated toward zero. */
  function MinutesOf(seconds: int): (m: int)
    ensures seconds >= 0 ==> 0 <= m && 60 * m <= seconds < 60 * m + 60
    ensures seconds < 0 ==> m <= 0 && 60 * m - 60 < seconds <= 60 * m
  {
    if seconds >= 0 then seconds / 60 else -((-seconds) / 60)
  }

  /** The base of the return URL shown on the expired page: the text before the first `?`. */
  function BaseUrl(returnUrl: string): (r: Option<string>)
    ensures returnUrl == "" <==> r.None?
    ensures r.Some? ==> '?' !in r.value && r.value <= returnUrl
    ensures r.Some? && '?' !in returnUrl ==> r.value == returnUrl
    ensures r.Some? && '?' in returnUrl ==> returnUrl[|r.value|] == '?'
  {
    if returnUrl == "" then None else Some(BeforeFirst(returnUrl, '?'))
  }

  /** The page for a session once it is found or created. */
  function Present(store: Store, key: string, orderId: Value, s: Session, now: int): (out: (Page, Store))
    requires key in store && store[key] == s
    ensures out.1.Keys == store.Keys
    ensures forall k :: k in store && k != key ==> out.1[k] == store[k]
    ensures out.1[key] == s || (IsExpired(s, now) && out.1[key] == s.(status := Expired))
    ensures out.0.ErrorPage? || out.0.RedirectTo? ==> s.status == Paid && out.1 == store
  {
    if IsExpired(s, now) then
      (ExpiredPage(key, s.createdAt, s.expiredAt, MinutesOf(s.expiredAt - s.createdAt), BaseUrl(s.returnUrl)),
       store[key := s.(status := Expired)])
    else if s.status == Paid then
      match PyInt(orderId)
      case None => (ErrorPage(InvalidSignature), store)      // `int(order_id)` raises ValueError
      case Some(n) => (RedirectTo(PaidRedirect(store, s, key, n)), store)
    else
      var remaining := if s.expiredAt - now < 0 then 0 else s.expiredAt - now;
      (PaymentPage(key, s.amount, s.description, QrUrl(s), s.expiredAt, s.createdAt, remaining,
                   s.accountNumber, s.returnUrl), store)
  }

  /** The page for the verified token `data`, from reading `expired_at` on. */
  function Show(data: seq<Field>, store: Store, now: int): (out: (Page, Store))
    ensures out.1.Keys >= store.Keys
    // Errors and redirects never write; only the payment and expired pages may.
    ensures out.0.ErrorPage? || out.0.RedirectTo? ==> out.1 == store
  {
    match IntView(Get(data, "expired_at", JNull))
    case None => (ErrorPage(InternalError), store)              // `fromtimestamp` raises TypeError
    case Some(expiredAt) =>
      var orderId := Get(data, "order_id", JNull);
      match OrderKey(orderId)
      case None => (ErrorPage(InternalError), store)            // the insert violates NOT NULL
      case Some(key) =>
        match GetOrCreate(store, key, data, expiredAt, now)
        case None => (ErrorPage(InternalError), store)          // the insert violates NOT NULL
        case Some((s, created)) => Present(created, key, orderId, s, now)
  }

  /**
   * `payment_view(signature)` at time `now`; `signature` is the query
   * parameter, absent when not given. The token check of module RequestToken
   * runs under the process secret with the decoder and HMAC passed in.
   */
  function PaymentView(signature: Option<string>, store: Store, now: int, secretKey: string,
                       decode: string -> RequestToken.Decoded,
                       hmacSha256Hex: (string, string) -> string,
                       dumps: Value -> string): (out: (Page, Store))
    ensures out.0 == ErrorPage(MissingSignature) <==> signature.None? || signature.value == ""
    ensures out.1.Keys >= store.Keys
    ensures out.0.ErrorPage? || out.0.RedirectTo? ==> out.1 == store
  {
    if signature.None? || signature.value == "" then (ErrorPage(MissingSignature), store)
    else
      match RequestToken.Verify(signature.value, secretKey, now, decode, hmacSha256Hex, dumps)
      case Err(_) => (ErrorPage(InvalidSignature), store)
      case Ok(data) => Show(data.fields, store, now)
  }

  /**
   * What the payment page may do to the store: every existing session
   * survives, at most with its status set to expired, and at most one session
   * is created, unpaid and with no payment recorded.
   */
  predicate OnlyExpiresOrCreates(store: Store, next: Store, now: int) {
    && (forall k :: k in store ==>
          k in next && (next[k] == store[k]
                        || (IsExpired(store[k], now) && next[k] == store[k].(status := Expired))))
    && (forall k :: k in next && k !in store ==>
          && next[k].orderId == k && next[k].status != Paid
          && next[k].transactionId.None? && next[k].paidAt.None? && next[k].createdAt == now
          && next.Keys == store.Keys + {k})
  }

  /** Without a `signature` parameter the error page is shown and nothing is written. */
  lemma MissingSignatureShowsError(store: Store, now: int, secretKey: string,
                                   decode: string -> RequestToken.Decoded,
                                   hmacSha256Hex: (string, string) -> string,
                                   dumps: Value -> string)
    ensures PaymentView(None, store, now, secretKey, decode, hmacSha256Hex, dumps) == (ErrorPage(MissingSignature), store)
    ensures PaymentView(Some(""), store, now, secretKey, decode, hmacSha256Hex, dumps) == (ErrorPage(MissingSignature), store)
  {
  }

  /** A token the check rejects, for whatever reason, shows the invalid-signature page and writes nothing. */
  lemma RejectedTokenShowsError(token: string, store: Store, now: int, secretKey: string,
                                decode: string -> RequestToken.Decoded,
                                hmacSha256Hex: (string, string) -> string,
                                dumps: Value -> string)
    requires token != ""
    requires RequestToken.Verify(token, secretKey, now, decode, hmacSha256Hex, dumps).Err?
    ensures PaymentView(Some(token), store, now, secretKey, decode, hmacSha256Hex, dumps)
              == (ErrorPage(InvalidSignature), store)
  {
  }

  /**
   * The expiry check comes before the paid check: a session past its expiry is
   * shown as expired and stored as `expired` whatever its status, even `paid`.
   */
  lemma ExpiryCheckedBeforePaid(store: Store, key: string, orderId: Value, now: int)
    requires key in store && IsExpired(store[key], now)
    ensures var (page, next) := Present(store, key, orderId, store[key], now);
      var s := store[key];
      && page == ExpiredPage(key, s.createdAt, s.expiredAt, MinutesOf(s.expiredAt - s.createdAt), BaseUrl(s.returnUrl))
      && next == store[key := s.(status := Expired)]
  {
  }

  /** A live paid session redirects to the same URL the status poll reports. */
  lemma PaidSessionRedirects(store: Store, key: string, now: int)
    requires key in store && !IsExpired(store[key], now) && store[key].status == Paid
    requires IsDigitString(key)
    ensures Present(store, key, JStr(key), store[key], now)
              == (RedirectTo(Poll(store, key, now).0.returnUrl.value), store)
  {
  }

  /**
   * A live unpaid session shows the payment page with its QR URL; the time
   * remaining is never negative and, read on the same clock as the expiry
   * check, is exactly the seconds left.
   */
  lemma LiveSessionShowsPaymentPage(store: Store, key: string, orderId: Value, now: int)
    requires key in store && !IsExpired(store[key], now) && store[key].status != Paid
    ensures var (page, next) := Present(store, key, orderId, store[key], now);
      && next == store
      && page.PaymentPage?
      && page.qrUrl == QrUrl(store[key])
      && page.timeRemaining == store[key].expiredAt - now
  {
  }

  /** `get_or_create` never overwrites an existing session. */
  lemma ShowNeverOverwrites(data: seq<Field>, store: Store, now: int)
    ensures OnlyExpiresOrCreates(store, Show(data, store, now).1, now)
  {
    var e := IntView(Get(data, "expired_at", JNull));
    var orderId := Get(data, "order_id", JNull);
    if e.Some? && OrderKey(orderId).Some? {
      var key := OrderKey(orderId).value;
      var g := GetOrCreate(store, key, data, e.value, now);
      if g.Some? {
        var (s, created) := g.value;
        var next := Present(created, key, orderId, s, now).1;
        if key !in store {
          assert created == store[key := s];
          assert next.Keys == store.Keys + {key};
        }
      }
    }
  }

  /** The payment page as a whole never overwrites an existing session. */
  lemma PaymentViewNeverOverwrites(signature: Option<string>, store: Store, now: int, secretKey: string,
                                   decode: string -> RequestToken.Decoded,
                                   hmacSha256Hex: (string, string) -> string,
                                   dumps: Value -> string)
    ensures OnlyExpiresOrCreates(store, PaymentView(signature, store, now, secretKey, decode, hmacSha256Hex, dumps).1, now)
  {
    if signature.Some? && signature.value != "" {
      var r := RequestToken.Verify(signature.value, secretKey, now, decode, hmacSha256Hex, dumps);
      if r.Ok? {
        ShowNeverOverwrites(r.value.fields, store, now);
      }
    }
  }
}
