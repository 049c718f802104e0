/**
 * How the endpoints fit together over one store: the invariants every
 * endpoint keeps, and what the read paths report after a webhook.
 */
module Lifecycle {

  import opened Base
  import opened Text
  import opened Json
  import opened Models
  import opened Webhook
  import opened Presenter
  import RequestToken

  /** Only the webhook marks sessions paid, and it only ever files them under digit strings. */
  predicate PaidKeysNumeric(store: Store) {
    forall k :: k in store && store[k].status == Paid ==> IsDigitString(k)
  }

  /** An invariant of every store the endpoints produce, starting from an empty table. */
  predicate Reachable(store: Store) {
    ValidStore(store) && PaidKeysNumeric(store)
  }

  /** The split is filed exactly where the read paths look for it. */
  lemma DonateKeysAgree(orderId: string)
    requires IsDigitString(orderId)
    ensures DonateKey(DigitsValue(orderId)) == DonateOrderId(orderId)
  {
  }

  lemma {:induction false} ReconcileKeepsReachable(store: Store, tx: Transaction, now: int)
    requires Reachable(store)
    ensures Reachable(Reconcile(store, tx, now).1)
  {
    ReconcilePreservesValidStore(store, tx, now);
    var next := Reconcile(store, tx, now).1;
    match ExtractOrderId(tx.description)
    case None =>
    case Some(o) =>
      assert IsOrderIdToken(o);
      forall k | k in next && next[k].status == Paid
        ensures IsDigitString(k)
      {
        if k !in store {
          assert k == DonateOrderId(o);
        } else if store[k] != next[k] {
          assert k == o;
        }
      }
  }

  lemma WebhookKeepsReachable(body: Option<Value>, header: string, secret: Option<string>,
                              store: Store, now: int,
                              hmacSha512Hex: (string, string) -> string,
                              dumpsCompact: Value -> string, repr: Value -> string)
    requires Reachable(store)
    ensures Reachable(HandleWebhook(body, header, secret, store, now, hmacSha512Hex, dumpsCompact, repr).1)
  {
    if HandleWebhook(body, header, secret, store, now, hmacSha512Hex, dumpsCompact, repr).1 != store {
      var fs := body.value.fields;
      var data := Get(fs, "data", JObject([]));
      var tx := Transaction(PyStr(Get(data.fields, "id", JNull), repr),
                            Get(data.fields, "description", JStr("")).s,
                            IntView(Get(data.fields, "amount", JNull)));
      ReconcileKeepsReachable(store, tx, now);
    }
  }

  lemma PollKeepsReachable(store: Store, orderId: string, now: int)
    requires Reachable(store)
    ensures Reachable(Poll(store, orderId, now).1)
  {
  }

  lemma PaymentViewKeepsReachable(signature: Option<string>, store: Store, now: int, secretKey: string,
                                  decode: string -> RequestToken.Decoded,
                                  hmacSha256Hex: (string, string) -> string,
                                  dumps: Value -> string)
    requires Reachable(store)
    ensures Reachable(PaymentView(signature, store, now, secretKey, decode, hmacSha256Hex, dumps).1)
  {
    var next := PaymentView(signature, store, now, secretKey, decode, hmacSha256Hex, dumps).1;
    PaymentViewNeverOverwrites(signature, store, now, secretKey, decode, hmacSha256Hex, dumps);
    ExpiryKeepsReachable(store, next, now);
  }

  lemma ExpiryKeepsReachable(store: Store, next: Store, now: int)
    requires Reachable(store) && OnlyExpiresOrCreates(store, next, now)
    ensures Reachable(next)
  {
    forall k | k in next
      ensures next[k].orderId == k && PaymentRecorded(next[k])
      ensures next[k].status == Paid ==> IsDigitString(k)
    {
      if k in store {
        assert next[k] == store[k] || next[k] == store[k].(status := Expired);
      }
    }
  }

  /** On a reachable store the `int(order_id)` of the read paths never raises. */
  lemma ReadPathsNeverFail(store: Store, orderId: string, now: int)
    requires Reachable(store)
    ensures !Poll(store, orderId, now).0.PollFailed?
    ensures !PaymentInfo(store, orderId).InfoFailed?
  {
  }

  /**
   * After a split, both read paths of the parent report the donation: the
   * poll appends its order id and amount, the info API lists it as
   * `donate_split` with the surplus.
   */
  lemma SplitIsReported(store: Store, tx: Transaction, now: int, later: int, orderId: string)
    requires ExtractOrderId(tx.description) == Some(orderId)
    requires orderId in store && store[orderId].status != Paid
    requires store[orderId].paymentType == MonthlyFund
    requires tx.amount.Some? && tx.amount.value > store[orderId].amount
    requires IsDigitString(orderId) && DonateOrderId(orderId) !in store
    ensures var next := Reconcile(store, tx, now).1;
      var d := DonateOrderId(orderId);
      var surplus := tx.amount.value - store[orderId].amount;
      && PaymentInfo(next, orderId).donateSplit == Some((d, surplus))
      && Poll(next, orderId, later).0.returnUrl
           == Some(SuccessUrl(next[orderId], orderId) + DonateSuffix(d, next[d]))
      && next[d].amount == surplus
  {
    OverpaidMonthlySplits(store, tx, now, orderId);
    DonateKeysAgree(orderId);
  }

  /**
   * Because the payment page checks expiry before payment, opening it for a
   * paid session past its expiry stores that session as expired: the info API
   * then reports it expired although its payment time is still recorded, and a
   * redelivery of the very webhook that paid it is no longer recognised as
   * already processed.
   */
  lemma ExpiredViewReopensPaidSession(store: Store, key: string, orderId: Value, now: int,
                                      tx: Transaction, later: int)
    requires key in store && store[key].status == Paid && IsExpired(store[key], now)
    requires ExtractOrderId(tx.description) == Some(key) && store[key].transactionId == Some(tx.id)
    ensures Reconcile(store, tx, later) == (AlreadyProcessed(key), store)
    ensures var next := Present(store, key, orderId, store[key], now).1;
      && PaymentInfo(next, key).status == Expired
      && PaymentInfo(next, key).paidAt == store[key].paidAt
      && Reconcile(next, tx, later).0 != AlreadyProcessed(key)
  {
    ExpiryCheckedBeforePaid(store, key, orderId, now);
  }
}
