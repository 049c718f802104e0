# Payment webhook reconciliation: a Dafny model

This project models a small Django payment service for a fund that collects
bank transfers through a VietQR code.

- A client service hands out a signed **request token**. The payment page
  verifies the token, finds or creates a **payment session**, and shows the QR
  code.
- When the transfer lands, the bank aggregator Casso posts a **webhook**. Its
  transaction description names the order. The handler reconciles the received
  amount with the session:
  - exact payment;
  - **split** of a monthly contribution's surplus into a new donation session;
  - **conversion** of an underpaid monthly contribution into a donation;
  - acceptance of any other mismatch.
- A **status poll** and a **payment-info API** read the session back. The poll
  expires stale pending sessions as it reads.

Every endpoint is a pure function. It takes the session store (`map<string,
Session>` keyed by the unique `order_id`) and the clock `now` in integer
seconds. It returns its reply and the new store.

Modules:

| module | file | models |
|---|---|---|
| `Base` | base.dfy | `Option`, `Result` |
| `Text` | text.dfy | Python's `isdigit`, `int()`, `str()`, `split(sep)`, `split()` |
| `Json` | json.dfy | JSON values, truthiness, `dict.get`, `==` against ints, `str()` |
| `KeySort` | keysort.dfy | the recursive key sort `sort_dict_by_keys` |
| `Models` | models.dfy | `PaymentSession`: status choices, `is_expired`, `get_qr_url` |
| `CassoSignature` | casso_signature.dfy | `verify_casso_signature_v2` |
| `RequestToken` | request_token.dfy | `SignatureManager.verify_signature` |
| `Webhook` | webhook.dfy | `casso_webhook` |
| `Presenter` | presenter.dfy | `payment_view`, `check_payment_status`, `get_payment_info` |
| `Lifecycle` | lifecycle.dfy | invariants shared by all endpoints |

Some computations are passed in as function parameters:
- HMAC-SHA512 and HMAC-SHA256 (RFC 2104), with hex output;
- the compact and the default `json.dumps` serialisations;
- base64url decoding (section 5 of RFC 4648) with UTF-8 and `json.loads`;
- `repr` of lists and dicts.

Everything around them is modelled step by step: header parsing, the key sort,
the signed message, the comparison, the order of the checks, and the error
paths.

Behaviour of the code worth knowing:

- The request token is not encrypted. It is base64url of a JSON object
  `{data, signature}` whose signature is HMAC-SHA256 of the key-sorted `data`.
- Only a `monthly_fund` session is converted when underpaid. A mismatch on any
  other type is accepted with its amount and type unchanged, and
  `converted_to_donate` is still reported true for a `donate` session.
- The webhook guards only `paid`. An `expired` or `cancelled` session is paid
  like a pending one.
- The payment page checks expiry before payment, so a paid session past its
  expiry is stored as `expired` when the page is opened
  (`Lifecycle.ExpiredViewReopensPaidSession` spells out the consequences).

## Model

| member | source | states |
|---|---|---|
| Text.Words | webhook/views.py:231 | `description.split()`: every word is non-empty and free of whitespace |
| Text.WordsPartition | webhook/views.py:231 | the words are the maximal whitespace-free runs: the description is the words interleaved with whitespace gaps, every gap between two words non-empty |
| Text.WordsUnwords | webhook/views.py:231 | splitting words that were joined with single spaces gives the words back |
| Text.ParseNat | webhook/views.py:389 | `int(order_id)` of a stored key succeeds exactly on non-empty ASCII digit strings |
| Text.NatToString | webhook/views.py:267 | `str(n)` is a digit string without a redundant leading zero, one digit exactly for n < 10 |
| Text.IntToString | webhook/views.py:387 | `str(i)` is non-empty and is a plain numeral exactly when i is not negative |
| Text.DigitsValueOfNatToString | webhook/views.py:267 | reading back `str(n)` gives n |
| Text.NatToStringOfDigitsValue | webhook/views.py:267 | `str(int(s))` is s for every canonical numeral s |
| Text.NatToStringInjective | webhook/views.py:267 | distinct numbers print differently |
| Text.IntToStringInjective | webhook/views.py:387 | distinct integers print differently, sign included |
| Text.SuccessorNumeralDiffers | webhook/views.py:267 | `str(int(order_id) + 1)` never equals `order_id`, leading zeros included |
| Text.Split | webhook/views.py:48 | `split(',')` yields at least one piece and no piece contains the separator |
| Text.JoinSplit | webhook/views.py:48 | joining the pieces of a split restores the header |
| Text.SplitJoin | webhook/views.py:48 | splitting a join of separator-free pieces gives the pieces back |
| Text.BeforeFirst | webhook/views.py:145 | `split('?')[0]` is the prefix before the first `?`, or the whole text when there is none |
| Json.Lookup | webhook/views.py:217 | `dict.get` finds a value exactly when the key is present, and the value is stored under that key |
| Json.Get | webhook/views.py:222-229 | `dict.get(k, default)` gives the default exactly for a missing key |
| Json.IntView | webhook/views.py:257 | only ints and bools compare equal to an int: an int is itself, `True` is 1 and `False` is 0 |
| Json.PyStr | webhook/views.py:246 | `str()` of a string is itself and of an int is its numeral |
| KeySort.StrLessTotal | webhook/views.py:67 | `sorted` compares keys by a total order: any two distinct keys are ordered one way |
| KeySort.StrLessTransitive | webhook/views.py:67 | the key order is transitive |
| KeySort.StrLessAsymmetric | webhook/views.py:67 | the key order is asymmetric |
| KeySort.SortFields | webhook/views.py:67 | sorting keeps the number of entries and exactly the same entries |
| KeySort.SortFieldsSorted | webhook/views.py:67 | the entries of a dict come out in strictly ascending key order |
| KeySort.SortedUnique | webhook/views.py:67 | two strictly key-ordered lists with the same entries are equal |
| KeySort.Canon | webhook/views.py:62-71 | the sort keeps the kind of every value, the length of a list, the size of a dict, and every scalar as it is |
| KeySort.CanonIsCanonical | webhook/views.py:62-71 | after the sort, every dict at every depth has strictly ascending keys |
| KeySort.CanonPreservesContent | webhook/views.py:62-71 | the sort keeps every dict's key set and values and every list's order and length |
| KeySort.CanonOfCanonical | webhook/views.py:62-71 | an already sorted value is returned unchanged |
| KeySort.CanonIdempotent | webhook/views.py:62-71 | sorting twice is sorting once |
| KeySort.CanonRespectsKeyOrder | webhook/views.py:62-71 | values that differ only in dict key order sort to the same value |
| KeySort.PermutedKeysSortEqually | webhook/views.py:67 | any permutation of a dict's entries sorts to the same list |
| Models.StatusNamesRoundTrip | webhook/models.py:19-28 | the four status choices and their stored names correspond one to one |
| Models.NewSession | webhook/models.py:27-35 | a new session is pending, has no transaction id and no payment time, and is created now |
| Models.ExpiryIsStrictAndMonotone | webhook/models.py:45-46 | a session is live at its expiry instant, expired one second later, and stays expired |
| Models.QrUrl | webhook/models.py:48-53 | the QR URL is the VietQR prefix, the account, `-compact2.png?amount=` with the amount's numeral, then `&addInfo=` and the description |
| Models.QrUrlIsAmbiguous | webhook/models.py:53 | since nothing is escaped, two sessions with different accounts and descriptions can share one QR URL |
| CassoSignature.SplitAtEquals | webhook/views.py:49 | `split('=', 1)` unpacks exactly when there is an `=`, and the key holds no `=` |
| CassoSignature.Collect | webhook/views.py:47-50 | the pieces parse exactly when every piece has an `=`, and no key holds an `=` |
| CassoSignature.ParseHeader | webhook/views.py:47-50 | the header parses exactly when every comma-separated piece has an `=`, and no key holds an `=` |
| CassoSignature.Verify | webhook/views.py:27-102 | an accepted header is non-empty and parses, names a non-empty `t` and an ASCII non-empty `v1`, and `v1` is the HMAC-SHA512 of `t + "." + sorted compact JSON` |
| CassoSignature.SplitAtEqualsOf | webhook/views.py:49 | `k=v` with an `=`-free key splits back into k and v |
| CassoSignature.CollectKeysComeFromPieces | webhook/views.py:47-50 | every parsed key comes from some piece |
| CassoSignature.CollectLastWins | webhook/views.py:47-50 | a repeated key takes the value of its last piece |
| CassoSignature.PieceWithoutEqualsRejects | webhook/views.py:46-102 | a header piece without `=` makes the check return False |
| CassoSignature.VerifyIgnoresKeyOrder | webhook/views.py:62-85 | payloads that differ only in dict key order verify identically |
| CassoSignature.ParseSignatureHeader | webhook/views.py:47-53 | the header `t=<t>,v1=<sig>` with comma-free parts parses to exactly `{t: <t>, v1: <sig>}` |
| CassoSignature.SignatureHeaderAcceptedIff | webhook/views.py:42-102 | such a header is accepted iff `t` and `sig` are non-empty and `sig` is the ASCII HMAC-SHA512 of `t + "." + sorted compact JSON` under the secret |
| CassoSignature.ForgedSignatureRejected | webhook/views.py:81-98 | any `sig` other than that HMAC is rejected, whatever the timestamp |
| CassoSignature.MissingTimestampRejected | webhook/views.py:47-57 | a header none of whose pieces starts with `t=` has no timestamp and is rejected |
| CassoSignature.SignedPayloadVerifies | webhook/views.py:47-89 | the header `t=<t>,v1=<HMAC of the payload>` made with the same secret is accepted |
| RequestToken.CheckExpiry | webhook/signature.py:55-57 | a falsy `expired_at` is skipped, and a non-zero one rejects iff now > expired_at, so the boundary is accepted |
| RequestToken.Verify | webhook/signature.py:34-67 | an accepted token yields a non-empty dict |
| RequestToken.AcceptedTokensAreGenuine | webhook/signature.py:38-60 | success returns exactly `payload['data']`, whose signature is the HMAC-SHA256 of its key-sorted JSON and which has not expired |
| RequestToken.FormatCheckedFirst | webhook/signature.py:38-42 | a payload without a truthy `data` or `signature` fails the format check |
| RequestToken.TamperedBeatsExpired | webhook/signature.py:44-57 | a mismatching signature is reported as a verification failure, whatever `data` holds and even when the token has also expired |
| RequestToken.SealedTokenOpens | webhook/signature.py:44-60 | a token sealed with the same secret opens to its data until its expiry instant |
| RequestToken.SealedTokenExpires | webhook/signature.py:55-57 | the same token is rejected as expired once now passes `expired_at` |
| Webhook.FirstOrderId | webhook/views.py:234-237 | the order id is the first word that is all digits with length at least ten, and there is none iff no word qualifies |
| Webhook.ExtractOrderId | webhook/views.py:231-237 | no order id is found iff no word of the description is all digits with length at least ten; a found one is such a word |
| Webhook.FindOrderId | webhook/views.py:231-237 | the scan over the words stops at that same first qualifying word |
| Webhook.DonateOrderId | webhook/views.py:267 | the split key `str(int(order_id) + 1)` is a canonical numeral whose value is the order id's plus one, so it differs from the order id |
| Webhook.MarkPaid | webhook/views.py:293-295 | marking paid records the transaction and the time and changes nothing else |
| Webhook.Settle | webhook/views.py:254-296 | an unpaid session is either confirmed, with that order paid by this transaction at `now` and no key lost, or the call fails with 500 and nothing written |
| Webhook.ReconcileSettles | webhook/views.py:243-296 | a description naming an unpaid session settles exactly that session, under a digit-string key |
| Webhook.SettleSplits | webhook/views.py:261-296 | an overpaid monthly session whose `order_id + 1` is free is confirmed with both flags set, the surplus donation added and the parent marked paid |
| Webhook.Reconcile | webhook/views.py:243-308 | only the named order and its split key are touched, no key disappears, paid sessions never change, and only a confirmation writes |
| Webhook.UnresolvableDescriptionRejected | webhook/views.py:239-241 | a description naming no order gives 400 "Invalid description" and no write |
| Webhook.UnknownOrderNotFound | webhook/views.py:310-316 | an order without a session gives 404 echoing the order id, with no write |
| Webhook.PaidIsTerminal | webhook/views.py:246-252 | a paid session gives "Already processed" for its own transaction id and "Already paid" for any other, with no write |
| Webhook.ExactAmountPays | webhook/views.py:254-308 | the exact amount marks the session paid, touches nothing else, and reports all three flags false |
| Webhook.OverpaidMonthlySplits | webhook/views.py:261-296 | an overpaid monthly session is paid at its own amount, and a paid donate session for the surplus appears under `order_id + 1`, copying the parent's fields |
| Webhook.SplitCollisionFails | webhook/views.py:261-323 | when `order_id + 1` already exists, the create raises: 500 with the parent still unpaid |
| Webhook.UnderpaidMonthlyConverts | webhook/views.py:287-296 | an underpaid monthly session becomes a paid donate session for the received amount, and no session is created |
| Webhook.OtherMismatchAccepted | webhook/views.py:254-308 | any other mismatch is paid with amount and type unchanged, and `converted_to_donate` holds iff it was already a donation |
| Webhook.ConfirmationFlags | webhook/views.py:302-308 | `amount_mismatch` iff received differs from expected, `split_payment` iff a session was created, `converted_to_donate` iff mismatch, final type donate and no split |
| Webhook.ReconcilePreservesValidStore | webhook/views.py:243-296 | every session stays filed under its own order id, and every paid one records its transaction and time |
| Webhook.SettleFlags | webhook/views.py:254-308 | each payment branch reports the three flags as the handler computes them |
| Webhook.SettlePreservesValidStore | webhook/views.py:254-296 | each payment branch keeps the store well-formed |
| Webhook.RedeliveryIsIdempotent | webhook/views.py:246-248 | redelivering a confirmed webhook answers "Already processed" and writes nothing |
| Webhook.HandleWebhook | webhook/views.py:194-323 | 400 "Invalid JSON" exactly for a body that is not JSON, 401 only with a secret configured, and only a confirmation of a JSON object with zero `error` writes |
| Webhook.VerifiedSignatureProceeds | webhook/views.py:209-215 | a signature that verifies lets the request through exactly as if no secret were configured |
| Webhook.HandlePayload | webhook/views.py:217-247 | after the signature gate, no reply is "Invalid JSON" or 401, and only a confirmation of a JSON object with zero `error` writes |
| Webhook.WebhookIsReconcile | webhook/views.py:209-247 | past the signature gate and the pre-checks, the endpoint's reply and store are exactly the reconciliation of the transaction read from `data`, so every reconciliation property holds of the endpoint |
| Webhook.BadSignatureRejected | webhook/views.py:209-212 | with a secret configured, a failing signature gives 401 and no write |
| Webhook.NoSecretSkipsVerification | webhook/views.py:209-215 | without a secret the signature header is never consulted and 401 never occurs |
| Webhook.PayloadPrechecks | webhook/views.py:209-225 | past the signature gate (no secret, or a verified signature), a non-zero or missing `error` gives 400 carrying the code, and empty `data` gives 400, both with no write |
| Presenter.PyInt | webhook/views.py:153 | `int()` of a string order id succeeds exactly on digit strings, with their value |
| Presenter.Poll | webhook/views.py:372-414 | 404 exactly for a missing order id; 500 only for a paid session under a non-numeric key; the only write sets a pending session past its expiry to expired; the stored amount is reported |
| Presenter.PaidRedirect | webhook/views.py:151-156 | the redirect starts with the success URL and equals it iff session `order_id + 1` is not paid; otherwise the donation parameters of that session follow |
| Presenter.PollPaid | webhook/views.py:386-397 | a paid session gets the success redirect, with donation parameters appended iff `order_id + 1` exists and is paid |
| Presenter.PollExpiresPending | webhook/views.py:398-402 | a pending session past its expiry is stored as expired and gets the `status=cancelled` URL |
| Presenter.PollOtherwiseReadOnly | webhook/views.py:380-404 | every other session is reported as stored, with no write and no URL |
| Presenter.PaymentInfo | webhook/views.py:327-368 | 404 exactly for a missing order id; 500 only for a paid session under a non-numeric key; otherwise every returned field mirrors the stored session, creation and expiry times included; never writes |
| Presenter.DonateSplitIff | webhook/views.py:347-356 | `donate_split` is present iff both the session and `order_id + 1` are paid, and then names that session and its amount |
| Presenter.PollAgreesWithInfo | webhook/views.py:386-397 | the poll's donation parameters and the info's `donate_split` always agree |
| Presenter.OrderKey | webhook/views.py:120-122 | a string order id is looked up as itself, an int one by its numeral, and a null one finds nothing |
| Presenter.SessionFromToken | webhook/views.py:122-134 | a session built from the token is pending, unpaid, created now, and filed under its own order id |
| Presenter.GetOrCreate | webhook/views.py:122-134 | an existing session is returned with the store untouched, and otherwise exactly the new session is added |
| Presenter.MinutesOf | webhook/views.py:140 | expired minutes are the seconds divided by 60, truncated toward zero |
| Presenter.BaseUrl | webhook/views.py:145 | the expired page shows the return URL up to its first `?`, and nothing for an empty return URL |
| Presenter.Present | webhook/views.py:136-178 | showing a session changes at most that session's status, to expired, and only when it has expired |
| Presenter.Show | webhook/views.py:121-134 | after the token check no session disappears, and an error or a redirect writes nothing |
| Presenter.PaymentView | webhook/views.py:105-191 | MISSING_SIGNATURE is shown exactly when `signature` is missing or empty; no session disappears; an error or a redirect writes nothing |
| Presenter.MissingSignatureShowsError | webhook/views.py:110-116 | a missing or empty `signature` shows MISSING_SIGNATURE with no write |
| Presenter.RejectedTokenShowsError | webhook/views.py:118-185 | a token that fails verification shows INVALID_SIGNATURE with no write |
| Presenter.ExpiryCheckedBeforePaid | webhook/views.py:136-150 | a session past its expiry shows the expired page and is stored as expired, whatever its status |
| Presenter.PaidSessionRedirects | webhook/views.py:150-160 | a live paid session redirects to the same URL the status poll reports |
| Presenter.LiveSessionShowsPaymentPage | webhook/views.py:162-178 | a live unpaid session shows its QR URL and the exact, non-negative time remaining, with no write |
| Presenter.ShowNeverOverwrites | webhook/views.py:122-134 | after the token check, existing sessions are never overwritten and at most one unpaid session is created |
| Presenter.PaymentViewNeverOverwrites | webhook/views.py:105-191 | the payment page as a whole only expires existing sessions or creates one unpaid session |
| Lifecycle.DonateKeysAgree | webhook/views.py:267 | the webhook files the split under the key the read paths look up |
| Lifecycle.ReconcileKeepsReachable | webhook/views.py:234-296 | reconciliation keeps stores well-formed, with paid sessions only under digit-string keys |
| Lifecycle.WebhookKeepsReachable | webhook/views.py:196-323 | so does the whole webhook endpoint |
| Lifecycle.PollKeepsReachable | webhook/views.py:398-402 | so does the status poll |
| Lifecycle.PaymentViewKeepsReachable | webhook/views.py:122-138 | so does the payment page |
| Lifecycle.ExpiryKeepsReachable | webhook/views.py:122-148 | expiring existing sessions and creating one unpaid session keeps a store reachable |
| Lifecycle.ReadPathsNeverFail | webhook/views.py:347-390 | on such stores, `int(order_id)` in the poll and the info API never raises |
| Lifecycle.SplitIsReported | webhook/views.py:347-397 | after a split, the poll and the info API both report the donation and its surplus |
| Lifecycle.ExpiredViewReopensPaidSession | webhook/views.py:136-160 | opening an expired paid session's page stores it as expired, so the info API reports it expired with its payment time, and the paying webhook is no longer "Already processed" |

## Left out

- HMAC-SHA512, HMAC-SHA256, base64url, UTF-8, `json.loads` and `json.dumps` are parameters of the model, so their internals are left out. A forged signature therefore cannot be ruled out inside the model. The lemmas state what is accepted in terms of these functions.
- The JSON model has no floats. Amounts, timestamps and order ids are integers, strings or booleans. The `float` division in the expired-minutes computation is modelled as truncating integer division.
- `datetime` and `timezone` become integer seconds. The several clock reads of one request collapse into one `now`, so the clamp of `time_remaining` is never active on a single clock.
- Python's `isdigit` also accepts non-ASCII digits; only ASCII `0`-`9` are modelled.
- Text.ParseNat: Python's `int()` also accepts surrounding whitespace, a sign, underscores and non-ASCII digits. The gap never shows: the poll and the info API only reach `int(order_id)` for a paid session, and every store the endpoints produce files paid sessions under ASCII digit strings only (`Lifecycle.Reachable`).
- Presenter.PyInt: `int()` also accepts surrounding whitespace, a sign and underscores. The model treats such order ids as not numeric.
- Presenter.SessionFromToken: the ORM coerces some mistyped values, such as a numeric string amount or an int description; the model treats every value of the wrong JSON type as a failed insert (INTERNAL_ERROR). In particular a non-numeric string `amount` or `per_month_price` (such as `"abc"`) makes the integer column raise `ValueError`, which the payment page reports as INVALID_SIGNATURE, whereas the model shows INTERNAL_ERROR.
- Column limits are not modelled: `amount` and `per_month_price` are 32-bit-range integer columns, and `order_id` and the transaction id hold at most 100 characters. On a database that enforces them, an out-of-range amount or surplus or an over-long id fails the save (500 from the webhook, INTERNAL_ERROR on the payment page); the model's unbounded integers and strings never fail.
- Presenter.OrderKey: a list or dict `order_id` is rejected as a failed insert instead of being looked up by its `str()`.
- `hmac.compare_digest` raises on non-ASCII strings. This is modelled as a failure. Lone surrogates are not modelled.
- A request body that is not valid UTF-8 is not modelled. Such a body is simply not JSON in the model.
- `datetime.fromtimestamp` fails on out-of-range timestamps; this is not modelled.
- Concurrency: the code uses no transaction or lock. Each endpoint is one sequential step over the store. A create that succeeds while the later parent save fails is not modelled.
- Rendering, redirects, `JsonResponse` bodies, CSRF and method decorators, the 404 handler and logging are left out. Replies are datatypes carrying the status code and the fields the properties talk about.
- webhook/urls.py (routing) and webhook/admin.py (admin UI) are not part of this model.
