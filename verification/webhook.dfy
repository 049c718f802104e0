/**
 * `casso_webhook` (webhook/views.py:194-323): the bank-aggregator webhook.
 * After the optional signature check and the payload pre-checks, the
 * transaction's description names an order; the matching session is then
 * reconciled with the received amount. The handler is a pure function from
 * the request and the store to the reply and the new store.
 */
module Webhook {

  import opened Base
  import opened Text
  import opened Json
  import opened Models
  import CassoSignature

  /** The fields of the transaction the handler reads. */
  datatype Transaction = Transaction(
    id: string,            // `str(data.get('id'))`
    description: string,
    amount: Option<int>)   // the received amount, when it is a number

  /** The JSON replies of the endpoint. */
  datatype Reply =
    | InvalidJson
    | InvalidSignature
    | CassoError(code: Value)
    | NoTransactionData
    | InvalidDescription
    | SessionNotFound(orderId: string)
    | AlreadyProcessed(orderId: string)
    | AlreadyPaid
    | Confirmed(orderId: string, amountMismatch: bool, splitPayment: bool, convertedToDonate: bool)
    | ServerError          // an exception caught by the outer handler

  function HttpStatus(r: Reply): int {
    match r
    case InvalidJson => 400
    case InvalidSignature => 401
    case CassoError(_) => 400
    case NoTransactionData => 400
    case InvalidDescription => 400
    case SessionNotFound(_) => 404
    case AlreadyProcessed(_) => 200
    case AlreadyPaid => 400
    case Confirmed(_, _, _, _) => 200
    case ServerError => 500
  }

  // ---------------------------------------------------------------------------
  // Order id extraction
  // ---------------------------------------------------------------------------

  /** A word that names an order: all digits, at least ten of them. */
  predicate IsOrderIdToken(w: string) {
    IsDigitString(w) && |w| >= 10
  }

  /** The first word that names an order. */
  function FirstOrderId(words: seq<string>): (r: Option<string>)
    ensures r.None? <==> forall i :: 0 <= i < |words| ==> !IsOrderIdToken(words[i])
    ensures r.Some? ==> exists i :: 0 <= i < |words| && words[i] == r.value && IsOrderIdToken(r.value)
                                    && forall j :: 0 <= j < i ==> !IsOrderIdToken(words[j])
  {
    if |words| == 0 then None
    else if IsOrderIdToken(words[0]) then Some(words[0])
    else
      var r := FirstOrderId(words[1..]);
      assert forall i :: 1 <= i < |words| ==> words[i] == words[1..][i - 1];
      if r.Some? then
        var i :| 0 <= i < |words[1..]| && words[1..][i] == r.value
                 && forall j :: 0 <= j < i ==> !IsOrderIdToken(words[1..][j]);
        assert words[i + 1] == r.value;
        r
      else
        r
  }

  /** The order id named in a transaction description, if any. */
  function ExtractOrderId(description: string): (r: Option<string>)
    ensures r.None? <==> forall w :: w in Words(description) ==> !IsOrderIdToken(w)
    ensures r.Some? ==> IsOrderIdToken(r.value) && r.value in Words(description)
  {
    FirstOrderId(Words(description))
  }

  /** The loop of the handler: scan the words and stop at the first order id. */
  method FindOrderId(words: seq<string>) returns (orderId: Option<string>)
    ensures orderId == FirstOrderId(words)
  {
    orderId := None;
    var i := 0;
    while i < |words|
      invariant 0 <= i <= |words|
      invariant FirstOrderId(words) == FirstOrderId(words[i..])
    {
      if IsOrderIdToken(words[i]) {
        orderId := Some(words[i]);
        return;
      }
      assert words[i..][1..] == words[i + 1..];
      i := i + 1;
    }
  }

  /** `str(int(order_id) + 1)`: the key of the donation split of an order. */
  function DonateOrderId(orderId: string): (d: string)
    requires IsDigitString(orderId)
    ensures d != orderId
    ensures IsCanonicalNumeral(d)
    ensures DigitsValue(d) == DigitsValue(orderId) + 1
  {
    SuccessorNumeralDiffers(orderId);
    DigitsValueOfNatToString(DigitsValue(orderId) + 1);
    NatToString(DigitsValue(orderId) + 1)
  }

  // ---------------------------------------------------------------------------
  // Reconciliation
  // ---------------------------------------------------------------------------

  /** The parent session after the `status`/transaction/`paid_at` assignments. */
  function MarkPaid(s: Session, txId: string, now: int): (p: Session)
    ensures p.status == Paid && p.transactionId == Some(txId) && p.paidAt == Some(now)
    ensures p.(status := s.status, transactionId := s.transactionId, paidAt := s.paidAt) == s
  {
    s.(status := Paid, transactionId := Some(txId), paidAt := Some(now))
  }

  /** The donation session created for the surplus of a monthly payment. */
  function SplitSession(parent: Session, donateId: string, surplus: int, txId: string, now: int): Session {
    Session(
      orderId := donateId,
      amount := surplus,
      description := "Xung quỹ từ " + parent.description,
      accountNumber := parent.accountNumber,
      returnUrl := parent.returnUrl,
      username := parent.username,
      paymentType := Donate,
      perMonthPrice := parent.perMonthPrice,
      status := Paid,
      transactionId := Some(txId + "_split"),
      paidAt := Some(now),
      createdAt := now,
      expiredAt := parent.expiredAt)
  }

  /** The success reply, with the three flags computed as the handler does. */
  function ConfirmReply(orderId: string, mismatch: bool, split: bool, final: Session): Reply {
    Confirmed(orderId, mismatch, split, mismatch && final.paymentType == Donate && !split)
  }

  /**
   * Payment of a session that is not yet paid: the exact, split, convert and
   * other-mismatch branches.
   */
  function Settle(store: Store, orderId: string, tx: Transaction, now: int): (out: (Reply, Store))
    requires orderId in store && IsDigitString(orderId)
    // Either the order is paid with this transaction, or the call fails and nothing is written.
    ensures out.0.Confirmed? || out == (ServerError, store)
    ensures out.1.Keys >= store.Keys
    ensures out.0.Confirmed? ==>
              && out.0.orderId == orderId
              && out.1[orderId].status == Paid
              && out.1[orderId].transactionId == Some(tx.id)
              && out.1[orderId].paidAt == Some(now)
  {
    var s := store[orderId];
    var mismatch := tx.amount != Some(s.amount);
    if !mismatch then
      var p := MarkPaid(s, tx.id, now);
      (ConfirmReply(orderId, false, false, p), store[orderId := p])
    else if s.paymentType == MonthlyFund && tx.amount.None? then
      (ServerError, store)                          // `amount > session.amount` raises
    else if s.paymentType == MonthlyFund && tx.amount.value > s.amount then
      var donateId := DonateOrderId(orderId);
      if donateId in store then
        (ServerError, store)                        // `create` violates the unique order_id
      else
        var split := SplitSession(s, donateId, tx.amount.value - s.amount, tx.id, now);
        var p := MarkPaid(s, tx.id, now);
        (ConfirmReply(orderId, true, true, p), store[donateId := split][orderId := p])
    else if s.paymentType == MonthlyFund then
      var p := MarkPaid(s.(paymentType := Donate, amount := tx.amount.value), tx.id, now);
      (ConfirmReply(orderId, true, false, p), store[orderId := p])
    else
      var p := MarkPaid(s, tx.id, now);
      (ConfirmReply(orderId, true, false, p), store[orderId := p])
  }

  /** The body of the handler once the transaction fields are read. */
  function Reconcile(store: Store, tx: Transaction, now: int): (out: (Reply, Store))
    // Nothing but the named order and its donation split is ever touched.
    ensures forall k :: k in store && k in out.1 && store[k] != out.1[k] ==>
              ExtractOrderId(tx.description) == Some(k)
    ensures out.1.Keys >= store.Keys
    ensures forall k :: k in out.1 && k !in store ==>
              exists o :: ExtractOrderId(tx.description) == Some(o) && k == DonateOrderId(o)
    // A paid session is never changed by a webhook.
    ensures forall k :: k in store && store[k].status == Paid ==> out.1[k] == store[k]
    // Only a confirmation writes.
    ensures !out.0.Confirmed? ==> out.1 == store
  {
    match ExtractOrderId(tx.description)
    case None => (InvalidDescription, store)
    case Some(orderId) =>
      if orderId !in store then (SessionNotFound(orderId), store)
      else
        var s := store[orderId];
        if s.status == Paid && s.transactionId == Some(tx.id) then (AlreadyProcessed(orderId), store)
        else if s.status == Paid then (AlreadyPaid, store)
        else Settle(store, orderId, tx, now)
  }

  // ---------------------------------------------------------------------------
  // The whole handler
  // ---------------------------------------------------------------------------

  /** `error_code != 0` in Python: `0` and `False` compare equal to zero. */
  predicate IsZero(code: Value) {
    code == JInt(0) || code == JBool(false)
  }

  /** Python's `if webhook_secret:`: a secret is configured when set and non-empty. */
  predicate SecretConfigured(secret: Option<string>) {
    secret.Some? && secret.value != ""
  }

  /**
   * `casso_webhook(request)`. `body` is the parsed request body (`None` when
   * it is not JSON), `repr` renders a list or dict for `str(id)`.
   */
  function HandleWebhook(body: Option<Value>, header: string, secret: Option<string>,
                         store: Store, now: int,
                         hmacSha512Hex: (string, string) -> string,
                         dumpsCompact: Value -> string,
                         repr: Value -> string): (out: (Reply, Store))
    ensures out.0 == InvalidJson <==> body.None?
    // A bad signature is only ever reported when a secret is configured.
    ensures out.0 == InvalidSignature ==> SecretConfigured(secret)
    // Only a confirmation writes, and only for a JSON object whose `error` is zero.
    ensures !out.0.Confirmed? ==> out.1 == store
    ensures out.0.Confirmed? ==>
              body.Some? && body.value.JObject? && IsZero(Get(body.value.fields, "error", JInt(-1)))
  {
    match body
    case None => (InvalidJson, store)
    case Some(payload) =>
      if SecretConfigured(secret)
         && !CassoSignature.Verify(payload, header, secret.value, hmacSha512Hex, dumpsCompact) then
        (InvalidSignature, store)
      else
        HandlePayload(payload, store, now, repr)
  }

  /** The handler once the signature gate is passed: the payload pre-checks, then reconciliation. */
  function HandlePayload(payload: Value, store: Store, now: int, repr: Value -> string): (out: (Reply, Store))
    ensures out.0 != InvalidJson && out.0 != InvalidSignature
    ensures !out.0.Confirmed? ==> out.1 == store
    ensures out.0.Confirmed? ==> payload.JObject? && IsZero(Get(payload.fields, "error", JInt(-1)))
  {
    if !payload.JObject? then
      (ServerError, store)                          // `payload.get` raises
    else
      var code := Get(payload.fields, "error", JInt(-1));
      if !IsZero(code) then (CassoError(code), store)
      else
        var data := Get(payload.fields, "data", JObject([]));
        if !Truthy(data) then (NoTransactionData, store)
        else if !data.JObject? then (ServerError, store)   // `data.get` raises
        else
          var description := Get(data.fields, "description", JStr(""));
          if !description.JStr? then (ServerError, store)  // `.split()` raises
          else
            var tx := Transaction(PyStr(Get(data.fields, "id", JNull), repr),
                                  description.s,
                                  IntView(Get(data.fields, "amount", JNull)));
            Reconcile(store, tx, now)
  }

  // ---------------------------------------------------------------------------
  // Properties of the reconciliation
  // ---------------------------------------------------------------------------

  /** A description naming no order is rejected with 400 and nothing is written. */
  lemma UnresolvableDescriptionRejected(store: Store, tx: Transaction, now: int)
    requires forall w :: w in Words(tx.description) ==> !IsOrderIdToken(w)
    ensures Reconcile(store, tx, now) == (InvalidDescription, store)
    ensures HttpStatus(InvalidDescription) == 400
  {
  }

  /** An order with no session gets 404 with the order id echoed, nothing written. */
  lemma UnknownOrderNotFound(store: Store, tx: Transaction, now: int, orderId: string)
    requires ExtractOrderId(tx.description) == Some(orderId) && orderId !in store
    ensures Reconcile(store, tx, now) == (SessionNotFound(orderId), store)
  {
  }

  /**
   * Paid is terminal: a redelivery of the recorded transaction is a success
   * no-op, any other transaction is rejected with 400, and nothing is written.
   */
  lemma PaidIsTerminal(store: Store, tx: Transaction, now: int, orderId: string)
    requires ExtractOrderId(tx.description) == Some(orderId)
    requires orderId in store && store[orderId].status == Paid
    ensures Reconcile(store, tx, now).1 == store
    ensures Reconcile(store, tx, now).0 ==
              if store[orderId].transactionId == Some(tx.id) then AlreadyProcessed(orderId) else AlreadyPaid
  {
  }

  /**
   * Exact amount: the session becomes paid with the transaction recorded and
   * `paid_at` set; amount and type stay; no other session is touched; all
   * three flags are false.
   */
  lemma ExactAmountPays(store: Store, tx: Transaction, now: int, orderId: string)
    requires ExtractOrderId(tx.description) == Some(orderId)
    requires orderId in store && store[orderId].status != Paid
    requires tx.amount == Some(store[orderId].amount)
    ensures var (reply, next) := Reconcile(store, tx, now);
      && reply == Confirmed(orderId, false, false, false)
      && next == store[orderId := MarkPaid(store[orderId], tx.id, now)]
  {
  }

  /**
   * Split: a monthly payment that receives more than expected is paid at its
   * own amount, and the surplus becomes a new paid "donate" session under
   * `str(int(order_id) + 1)` that inherits the parent's account, return URL,
   * username, monthly price and expiry.
   */
  lemma OverpaidMonthlySplits(store: Store, tx: Transaction, now: int, orderId: string)
    requires ExtractOrderId(tx.description) == Some(orderId)
    requires orderId in store && store[orderId].status != Paid
    requires store[orderId].paymentType == MonthlyFund
    requires tx.amount.Some? && tx.amount.value > store[orderId].amount
    requires IsDigitString(orderId) && DonateOrderId(orderId) !in store
    ensures var (reply, next) := Reconcile(store, tx, now);
      var s := store[orderId];
      var d := DonateOrderId(orderId);
      && reply == Confirmed(orderId, true, true, false)
      && next.Keys == store.Keys + {d}
      && next[orderId] == MarkPaid(s, tx.id, now)
      && next[d].orderId == d
      && next[d].amount == tx.amount.value - s.amount > 0
      && next[d].paymentType == Donate
      && next[d].status == Paid
      && next[d].transactionId == Some(tx.id + "_split")
      && next[d].paidAt == Some(now)
      && next[d].accountNumber == s.accountNumber
      && next[d].returnUrl == s.returnUrl
      && next[d].username == s.username
      && next[d].perMonthPrice == s.perMonthPrice
      && next[d].expiredAt == s.expiredAt
      && forall k :: k in store && k != orderId ==> next[k] == store[k]
  {
    var s := store[orderId];
    var d := DonateOrderId(orderId);
    var p := MarkPaid(s, tx.id, now);
    var split := SplitSession(s, d, tx.amount.value - s.amount, tx.id, now);
    ReconcileSettles(store, tx, now, orderId);
    SettleSplits(store, orderId, tx, now);
    var next := store[d := split][orderId := p];
    assert d != orderId && next[d] == split && next[orderId] == p;
  }

  /** A description naming an unpaid session hands it to `Settle`. */
  lemma ReconcileSettles(store: Store, tx: Transaction, now: int, orderId: string)
    requires ExtractOrderId(tx.description) == Some(orderId)
    requires orderId in store && store[orderId].status != Paid
    ensures IsDigitString(orderId)
    ensures Reconcile(store, tx, now) == Settle(store, orderId, tx, now)
  {
  }

  lemma SettleSplits(store: Store, orderId: string, tx: Transaction, now: int)
    requires orderId in store && IsDigitString(orderId)
    requires store[orderId].paymentType == MonthlyFund
    requires tx.amount.Some? && tx.amount.value > store[orderId].amount
    requires DonateOrderId(orderId) !in store
    ensures var s := store[orderId];
      var d := DonateOrderId(orderId);
      Settle(store, orderId, tx, now)
        == (Confirmed(orderId, true, true, false),
            store[d := SplitSession(s, d, tx.amount.value - s.amount, tx.id, now)][orderId := MarkPaid(s, tx.id, now)])
  {
  }

  /**
   * Split collision: when `str(int(order_id) + 1)` already exists, creating
   * the donation raises before the parent is saved: 500 and nothing written.
   */
  lemma SplitCollisionFails(store: Store, tx: Transaction, now: int, orderId: string)
    requires ExtractOrderId(tx.description) == Some(orderId)
    requires orderId in store && store[orderId].status != Paid
    requires store[orderId].paymentType == MonthlyFund
    requires tx.amount.Some? && tx.amount.value > store[orderId].amount
    requires IsDigitString(orderId) && DonateOrderId(orderId) in store
    ensures Reconcile(store, tx, now) == (ServerError, store)
  {
  }

  /**
   * Convert: a monthly payment that receives less than expected becomes a
   * "donate" session for the received amount and is paid; no session is created.
   */
  lemma UnderpaidMonthlyConverts(store: Store, tx: Transaction, now: int, orderId: string)
    requires ExtractOrderId(tx.description) == Some(orderId)
    requires orderId in store && store[orderId].status != Paid
    requires store[orderId].paymentType == MonthlyFund
    requires tx.amount.Some? && tx.amount.value < store[orderId].amount
    ensures var (reply, next) := Reconcile(store, tx, now);
      var p := next[orderId];
      && reply == Confirmed(orderId, true, false, true)
      && next.Keys == store.Keys
      && p.paymentType == Donate && p.amount == tx.amount.value
      && p.status == Paid && p.transactionId == Some(tx.id) && p.paidAt == Some(now)
      && p.(paymentType := MonthlyFund, amount := store[orderId].amount,
            status := store[orderId].status, transactionId := store[orderId].transactionId,
            paidAt := store[orderId].paidAt) == store[orderId]
      && forall k :: k in store && k != orderId ==> next[k] == store[k]
  {
  }

  /**
   * Other mismatch: a session of any other type is paid with amount and type
   * unchanged; the conversion flag is set exactly when it already was a donation.
   */
  lemma OtherMismatchAccepted(store: Store, tx: Transaction, now: int, orderId: string)
    requires ExtractOrderId(tx.description) == Some(orderId)
    requires orderId in store && store[orderId].status != Paid
    requires store[orderId].paymentType != MonthlyFund
    requires tx.amount != Some(store[orderId].amount)
    ensures var (reply, next) := Reconcile(store, tx, now);
      && reply == Confirmed(orderId, true, false, store[orderId].paymentType == Donate)
      && next == store[orderId := MarkPaid(store[orderId], tx.id, now)]
  {
  }

  /**
   * The flags of every confirmation: `amount_mismatch` iff the received amount
   * differs from the expected one, `split_payment` iff a new session appeared,
   * `converted_to_donate` iff mismatch, final type "donate" and no split.
   */
  lemma {:induction false} ConfirmationFlags(store: Store, tx: Transaction, now: int)
    requires Reconcile(store, tx, now).0.Confirmed?
    ensures var (reply, next) := Reconcile(store, tx, now);
      var o := reply.orderId;
      && ExtractOrderId(tx.description) == Some(o)
      && o in store && store[o].status != Paid
      && next[o].status == Paid && next[o].transactionId == Some(tx.id) && next[o].paidAt == Some(now)
      && (reply.amountMismatch <==> tx.amount != Some(store[o].amount))
      && (reply.splitPayment <==> next.Keys != store.Keys)
      && (reply.convertedToDonate <==>
            reply.amountMismatch && next[o].paymentType == Donate && !reply.splitPayment)
  {
    var o := ExtractOrderId(tx.description).value;
    assert IsOrderIdToken(o);
    SettleFlags(store, o, tx, now);
  }

  lemma SettleFlags(store: Store, orderId: string, tx: Transaction, now: int)
    requires orderId in store && IsDigitString(orderId)
    requires Settle(store, orderId, tx, now).0.Confirmed?
    ensures var (reply, next) := Settle(store, orderId, tx, now);
      && (reply.amountMismatch <==> tx.amount != Some(store[orderId].amount))
      && (reply.splitPayment <==> next.Keys != store.Keys)
      && (reply.convertedToDonate <==>
            reply.amountMismatch && next[orderId].paymentType == Donate && !reply.splitPayment)
  {
    var d := DonateOrderId(orderId);
    assert d in Settle(store, orderId, tx, now).1.Keys ==> d in store || Settle(store, orderId, tx, now).0.splitPayment;
  }

  /** Every reply that writes keeps the store well-formed. */
  lemma ReconcilePreservesValidStore(store: Store, tx: Transaction, now: int)
    requires ValidStore(store)
    ensures ValidStore(Reconcile(store, tx, now).1)
  {
    match ExtractOrderId(tx.description)
    case None =>
    case Some(o) =>
      assert IsOrderIdToken(o);
      if o in store && store[o].status != Paid {
        SettlePreservesValidStore(store, o, tx, now);
      }
  }

  lemma SettlePreservesValidStore(store: Store, orderId: string, tx: Transaction, now: int)
    requires ValidStore(store)
    requires orderId in store && IsDigitString(orderId)
    ensures ValidStore(Settle(store, orderId, tx, now).1)
  {
    var s := store[orderId];
    var next := Settle(store, orderId, tx, now).1;
    forall k | k in next
      ensures next[k].orderId == k && PaymentRecorded(next[k])
    {
      if k == orderId {
      } else if k in store {
        assert next[k] == store[k];
      } else {
        assert k == DonateOrderId(orderId);
      }
    }
  }

  /**
   * Redelivering a webhook after it was confirmed is a success no-op: the
   * store is not written again and no second split session appears.
   */
  lemma RedeliveryIsIdempotent(store: Store, tx: Transaction, now: int, later: int)
    requires Reconcile(store, tx, now).0.Confirmed?
    ensures var next := Reconcile(store, tx, now).1;
      Reconcile(next, tx, later) == (AlreadyProcessed(Reconcile(store, tx, now).0.orderId), next)
  {
    ConfirmationFlags(store, tx, now);
  }

  // ---------------------------------------------------------------------------
  // Properties of the pre-checks
  // ---------------------------------------------------------------------------

  /** With a secret configured, a payload whose signature fails gets 401 and nothing is written. */
  lemma BadSignatureRejected(payload: Value, header: string, secret: string, store: Store, now: int,
                             hmacSha512Hex: (string, string) -> string,
                             dumpsCompact: Value -> string, repr: Value -> string)
    requires secret != ""
    requires !CassoSignature.Verify(payload, header, secret, hmacSha512Hex, dumpsCompact)
    ensures HandleWebhook(Some(payload), header, Some(secret), store, now, hmacSha512Hex, dumpsCompact, repr)
              == (InvalidSignature, store)
  {
  }

  /** Without a secret the header is never looked at. */
  lemma NoSecretSkipsVerification(body: Option<Value>, h1: string, h2: string, secret: Option<string>,
                                  store: Store, now: int,
                                  hmacSha512Hex: (string, string) -> string,
                                  dumpsCompact: Value -> string, repr: Value -> string)
    requires !SecretConfigured(secret)
    ensures HandleWebhook(body, h1, secret, store, now, hmacSha512Hex, dumpsCompact, repr)
         == HandleWebhook(body, h2, secret, store, now, hmacSha512Hex, dumpsCompact, repr)
    ensures HandleWebhook(body, h1, secret, store, now, hmacSha512Hex, dumpsCompact, repr).0 != InvalidSignature
  {
  }

  /** A signature that verifies lets the request through as if no secret were configured. */
  lemma VerifiedSignatureProceeds(payload: Value, header: string, secret: string, store: Store, now: int,
                                  hmacSha512Hex: (string, string) -> string,
                                  dumpsCompact: Value -> string, repr: Value -> string)
    requires secret != ""
    requires CassoSignature.Verify(payload, header, secret, hmacSha512Hex, dumpsCompact)
    ensures HandleWebhook(Some(payload), header, Some(secret), store, now, hmacSha512Hex, dumpsCompact, repr)
         == HandleWebhook(Some(payload), header, None, store, now, hmacSha512Hex, dumpsCompact, repr)
  {
  }

  /**
   * Past the signature gate and the payload pre-checks, the endpoint is the
   * reconciliation of the transaction read from `data`, so every property of
   * `Reconcile` holds of the endpoint itself.
   */
  lemma WebhookIsReconcile(fields: seq<Field>, header: string, secret: Option<string>, store: Store, now: int,
                           hmacSha512Hex: (string, string) -> string,
                           dumpsCompact: Value -> string, repr: Value -> string)
    requires !SecretConfigured(secret)
             || CassoSignature.Verify(JObject(fields), header, secret.value, hmacSha512Hex, dumpsCompact)
    requires IsZero(Get(fields, "error", JInt(-1)))
    requires var data := Get(fields, "data", JObject([]));
             data.JObject? && data.fields != [] && Get(data.fields, "description", JStr("")).JStr?
    ensures var data := Get(fields, "data", JObject([])).fields;
      var tx := Transaction(PyStr(Get(data, "id", JNull), repr),
                            Get(data, "description", JStr("")).s,
                            IntView(Get(data, "amount", JNull)));
      HandleWebhook(Some(JObject(fields)), header, secret, store, now, hmacSha512Hex, dumpsCompact, repr)
        == Reconcile(store, tx, now)
  {
  }

  /**
   * Once past the signature gate (no secret, or a signature that verifies), a
   * non-zero `error` (missing counts as -1) gets 400 carrying the code, and
   * an empty or missing `data` gets 400; neither writes.
   */
  lemma PayloadPrechecks(fields: seq<Field>, header: string, secret: Option<string>, store: Store, now: int,
                         hmacSha512Hex: (string, string) -> string,
                         dumpsCompact: Value -> string, repr: Value -> string)
    requires !SecretConfigured(secret)
             || CassoSignature.Verify(JObject(fields), header, secret.value, hmacSha512Hex, dumpsCompact)
    ensures var code := Get(fields, "error", JInt(-1));
      var out := HandleWebhook(Some(JObject(fields)), header, secret, store, now, hmacSha512Hex, dumpsCompact, repr);
      && (!IsZero(code) ==> out == (CassoError(code), store) && HttpStatus(out.0) == 400)
      && (IsZero(code) && !Truthy(Get(fields, "data", JObject([]))) ==> out == (NoTransactionData, store))
  {
  }
}
