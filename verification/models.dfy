/**
 * The `PaymentSession` record (webhook/models.py) and the store of sessions,
 * a map keyed by the unique `order_id`.
 */
module Models {

  import opened Base
  import opened Text

  /** The four status choices of a session; every session holds one of them. */
  datatype Status = Pending | Paid | Expired | Cancelled

  /** The value stored in the `status` column. */
  function StatusName(s: Status): string {
    match s
    case Pending => "pending"
    case Paid => "paid"
    case Expired => "expired"
    case Cancelled => "cancelled"
  }

  /** Reads a stored status value back; anything outside the choices has none. */
  function ParseStatus(name: string): Option<Status> {
    if name == "pending" then Some(Pending)
    else if name == "paid" then Some(Paid)
    else if name == "expired" then Some(Expired)
    else if name == "cancelled" then Some(Cancelled)
    else None
  }

  /** The stored names and the status choices are in one-to-one correspondence. */
  lemma StatusNamesRoundTrip(s: Status, name: string)
    ensures ParseStatus(StatusName(s)) == Some(s)
    ensures ParseStatus(name) == Some(s) ==> StatusName(s) == name
  {
  }

  /**
   * One payment session. Timestamps are integer seconds; `transactionId` and
   * `paidAt` are `None` until a payment is recorded.
   */
  datatype Session = Session(
    orderId: string,
    amount: int,
    description: string,
    accountNumber: string,
    returnUrl: string,
    username: Option<string>,
    paymentType: string,
    perMonthPrice: Option<int>,
    status: Status,
    transactionId: Option<string>,
    paidAt: Option<int>,
    createdAt: int,
    expiredAt: int)

  /** The payment type of a scheduled monthly contribution. */
  const MonthlyFund: string := "monthly_fund"

  /** The payment type of a one-off donation. */
  const Donate: string := "donate"

  /** A freshly created session: default status, no payment recorded, created now. */
  function NewSession(
    orderId: string, amount: int, description: string, accountNumber: string,
    returnUrl: string, username: Option<string>, paymentType: string,
    perMonthPrice: Option<int>, expiredAt: int, now: int): (s: Session)
    ensures s.status == Pending
    ensures s.transactionId == None && s.paidAt == None
    ensures s.createdAt == now
    ensures s.orderId == orderId && s.amount == amount && s.expiredAt == expiredAt
  {
    Session(orderId, amount, description, accountNumber, returnUrl, username,
            paymentType, perMonthPrice, Pending, None, None, now, expiredAt)
  }

  /** `is_expired()`: strictly past the expiry instant. */
  predicate IsExpired(s: Session, now: int) {
    now > s.expiredAt
  }

  /** Expiry is strict: a session is still live at its expiry instant and expired one second later, and stays expired. */
  lemma ExpiryIsStrictAndMonotone(s: Session, now: int, later: int)
    requires now <= later
    ensures !IsExpired(s, s.expiredAt) && IsExpired(s, s.expiredAt + 1)
    ensures IsExpired(s, now) ==> IsExpired(s, later)
  {
  }

  const QrPrefix: string := "https://img.vietqr.io/image/970416-"
  const QrMiddle: string := "-compact2.png?amount="
  const QrInfo: string := "&addInfo="

  /**
   * `get_qr_url()`: the VietQR image URL for the session's account, amount and
   * description, with nothing escaped.
   */
  function QrUrl(s: Session): (url: string)
    ensures |url| > |QrPrefix| + |s.accountNumber| + |QrInfo| + |s.description|
    ensures url[..|QrPrefix|] == QrPrefix
    ensures url[|QrPrefix|..|QrPrefix| + |s.accountNumber|] == s.accountNumber
    ensures url[|url| - |s.description|..] == s.description
    ensures url[|url| - |s.description| - |QrInfo|..|url| - |s.description|] == QrInfo
    ensures url[|QrPrefix| + |s.accountNumber|..|url| - |s.description| - |QrInfo|]
              == QrMiddle + IntToString(s.amount)
  {
    QrPrefix + s.accountNumber + QrMiddle + IntToString(s.amount) + QrInfo + s.description
  }

  /**
   * Because nothing is escaped, a description that itself contains the
   * `-compact2.png?amount=…&addInfo=` text yields the same URL as another
   * session with a different account and description.
   */
  lemma QrUrlIsAmbiguous(a: Session, x: string, y: string)
    requires a.description == x + QrMiddle + IntToString(a.amount) + QrInfo + y
    ensures var b := a.(accountNumber := a.accountNumber + QrMiddle + IntToString(a.amount) + QrInfo + x,
                        description := y);
            b.description != a.description && QrUrl(b) == QrUrl(a)
  {
    var amt := IntToString(a.amount);
    var b := a.(accountNumber := a.accountNumber + QrMiddle + amt + QrInfo + x, description := y);
    calc {
      QrUrl(b);
      QrPrefix + (a.accountNumber + QrMiddle + amt + QrInfo + x) + QrMiddle + amt + QrInfo + y;
      { assert QrPrefix + (a.accountNumber + QrMiddle + amt + QrInfo + x)
          == QrPrefix + a.accountNumber + QrMiddle + amt + QrInfo + x; }
      QrPrefix + a.accountNumber + QrMiddle + amt + QrInfo + (x + QrMiddle + amt + QrInfo + y);
      QrUrl(a);
    }
  }

  /** The sessions, keyed by `order_id` (unique in the table). */
  type Store = map<string, Session>

  /** A paid session carries its transaction id and payment time. */
  predicate PaymentRecorded(s: Session) {
    s.status == Paid ==> s.transactionId.Some? && s.paidAt.Some?
  }

  /** Every session sits under its own `order_id` and paid sessions record their payment. */
  predicate ValidStore(store: Store) {
    forall k :: k in store ==> store[k].orderId == k && PaymentRecorded(store[k])
  }
}
