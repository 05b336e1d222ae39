# Verification of the bank's request guards, settlement books and listings

This project models, in Dafny, the parts of the Banka 4 backend whose correctness spans several functions, and
proves properties of every request, every error chain and every run of the bank.

* **Request guards** (`RequestContext`, `GuardMeaning`, `GinEngine`, `GuardLaws`, `GuardAnswers`, `Identity`). Guards run as handlers
  on a mutable gin context: each calls `Next` itself while the loop that started it also advances, and `AnyOf` tries
  its members on probe contexts. `GinEngine` is that machine; `GuardMeaning` says what a chain means without indices,
  contexts or loops; every method of the machine is proved against that meaning, `GuardLaws` proves what routes
  may rely on, and `GuardAnswers` says in terms of a token's claims who gets through.
* **The bank's books** (`ExchangeRates`, `Books`, `TradeSettlement`, `Payments`, `OtcFunds`, `InterbankCash`). Trade
  settlement, payments, OTC reservations and the interbank cash participant all change the same account rows. Each
  service is a set of methods on a mutable `Database` that may fail at any repository call and rolls back, proved
  against a function from tables to tables. `TradeAnswers`, `PaymentAnswers`, `FundsAnswers` and `CashAnswers` say what
  those functions answer in terms of requests, rows, rates and statuses alone.
* **Runs of the bank** (`BankRuns`, `BankPromises`, `JournalLaws`, `PaymentLaws`, `PaymentLimits`, `PaymentAgreement`,
  `Conservation`). A run is any interleaving of database transactions of these services, each with its own exchange
  rates and its own failures, and each taking effect at once. The main result is reconciliation: in every state that a
  run reaches each balance is the opening balance plus exactly what completed rows say, and what is unavailable is
  exactly what open rows hold. From it follow the promises of the two-phase protocols; the settlement positions, the
  payment history, the finality of outcomes and the conservation of each currency are proved beside it.
* **Overlapping transactions** (`Overlaps`, `OverlapRuns`, `OverlapLaws`). The code reads rows without locks and writes
  absolute values back, and hands a payment over to another bank between reading and writing its entry. So requests that
  overlap can undo each other, and what holds of runs fails in general: reconciliation and the promises that rest on it,
  the payment history, and the finality of outcomes. The model splits a transaction into what it read and what it writes
  back, and proves for each of these exactly when a write-back keeps it, and that schedules in which nobody disturbs
  another have the effect of a run.
* **Listings and errors** (`AuditLog`, `AuditPaging`, `AuditGrowth`, `TaxListing`, `AppErrors`).

`SmallBooks` holds the two accounts on which failing inputs are shown. Amounts and rates are real numbers. Runs assume
that ids are used for what they were handed out for: a settlement is processed as a settlement, a payment as a payment,
and another bank's outcome is reported for a payment to that bank.

Expectations that the code does not meet in general are stated with an input on which they fail and the condition under
which they hold:

* claims read back under their own type return an assigned id exactly if that type is the assigned one
  (`Identity.LastAssignmentWins`, `Identity.ClientTypedClaimsLoseAnEmployee`);
* a client never passes its own `RequireClientSelf` inside `AnyOf` (`GuardLaws.ClientSelfUnderAnyOf`,
  `GuardLaws.OwnIdIsRefusedUnderAnyOf`);
* audit pages read by separate queries deliver every row once, however the database orders rows of one time: while
  nothing is saved, exactly if no rows of one time lie across the end of a page (`AuditPaging.SeparatePagesFitExactly`,
  `AuditPaging.FirstOfTwoShownTwice`); while entries are saved, exactly if in addition no wanted entry that sorts before
  the end of a page is saved after that page is read (`AuditGrowth.GrowingPagesFitExactly`,
  `AuditGrowth.SavedEntryRepeatsARow`);
* a transaction that overlaps others keeps the books balanced exactly if it fails on a key that is taken, or others have
  moved the accounts that it overwrites by exactly what they did to the rows that it overwrites, and nothing else with
  those rows (`Overlaps.OverlapKeepsBooksExactly`, `OverlapRuns.OneHundredCoversTwiceSixty`);
* it keeps one history entry for each posting that calls for one exactly if it fails on a key that is taken, or nobody
  has committed the posting that it overwrites since it was read (`OverlapLaws.OverlapKeepsHistoryExactly`,
  `OverlapLaws.SixtyShownTwice`);
* a payment that was closed while it was being handed over stays as it was closed exactly if the other bank does not
  refuse it for good, or it was rejected anyway (`OverlapLaws.OutcomeSurvivesHandingOverExactly`,
  `OverlapLaws.SixtyRefusedAfterSuccess`);
* an outcome that is reported for an open entry keeps the books balanced exactly if it is a failure, or the entry is a
  payment to another bank, or it is for nothing (`PaymentLaws.OutcomeKeepsBooksExactly`,
  `PaymentLaws.SixtyThatNeverMoved`);
* the entry of a payment to another bank and the posting that names it agree throughout a run exactly if no step closes
  the entry against the posting or holds the posting of a rejected entry again
  (`PaymentAgreement.AgreementThroughoutExactly`, `PaymentAgreement.SecondHandingOverDivides`);
* the daily and monthly limits of a customer's account bound what is spent in total, while nothing is added to it,
  exactly if they leave no room to begin with or no more money is available than room
  (`PaymentLimits.LimitsBoundTheSumExactly`, `PaymentLimits.ThreeHundredWithinOneHundred`);
* the total of the tax listing, which is documented as paginated, counts the entries of the one page it returns, and is
  that of the whole listing exactly if nobody is listed or the first page holds everybody
  (`TaxListing.TotalIsExactlyOnePage`, `TaxListing.TwoClientsCountAsOne`).

## Model

| member | source | states |
|---|---|---|
| GinEngine.GinContext.Next | common/pkg/auth/auth.go:56-105 | the nested `Next` calls and the outer loop together run the remaining handlers exactly as the chain means, terminate, and never wrap gin's index |
| GinEngine.GinContext.Invoke | common/pkg/auth/auth.go:18-175 | running any handler, and through it what it lets run, is its meaning in front of the later handlers |
| GinEngine.GinContext.RunAuthenticate | common/pkg/auth/auth.go:18-58 | sets the identity and goes on exactly for an accepted token with loadable permissions, else one 401 or 500 |
| GinEngine.GinContext.RunRequirePermission | common/pkg/auth/auth.go:63-82 | the early-exit loop is a conjunction over the required permissions |
| GinEngine.GinContext.RunRequireIdentityType | common/pkg/auth/auth.go:86-105 | the early-exit loop is membership in the allowed types |
| GinEngine.GinContext.RunRequireClientSelf | common/pkg/auth/auth.go:107-138 | admits an allowed employee or the client whose id the path parameter spells, else one 401, 403 or 400 |
| GinEngine.GinContext.RunAnyOf | common/pkg/auth/auth.go:155-175 | probing is a disjunction; the outer keys, request and errors stay as they were unless every member rejects |
| GinEngine.GinContext.Probe | common/pkg/auth/auth.go:158-164 | a probe has the same request and keys, no path parameters, errors or handlers |
| GinEngine.GinContext.AbortWithError | common/pkg/auth/auth.go:140-143 | records one error and aborts, and changes nothing else |
| GinEngine.GinContext.SetAuth | common/pkg/auth/context.go:30-34 | writes the same identity to the gin keys and to the request's stdlib context |
| GinEngine.GinContext.RunErrorHandler | common/pkg/errors/errors.go:141-163 | answers the last recorded error once the chain has run, and nothing when there is none |
| GinEngine.HasPermission | common/pkg/auth/auth.go:145-153 | is membership |
| GuardMeaning.ProbeVerdict | common/pkg/auth/auth.go:166-170 | a probe ends unaborted exactly when the member's boolean meaning holds |
| GuardLaws.ChainRunsToFirstRejection | common/pkg/auth/auth.go:63-105 | for every chain: handlers start once each, in order, up to the first that rejects; it aborts iff one rejects and records that one's error; the identity left is the one set by those that admitted |
| GuardLaws.OneResponse | common/pkg/errors/errors.go:141-163 | behind the error handler and any guards the client gets exactly one response: the first rejection, or the endpoint's result iff all admit |
| GuardLaws.RejectionStatuses | common/pkg/auth/auth.go:18-175 | 401 from a guard says exactly that nobody is authenticated, 400 that a client's parameter is no id, 500 that permissions could not be loaded, 403 everything else |
| GuardLaws.CoherenceIsKept | common/pkg/auth/context.go:27-34 | no chain drives the gin identity and the stdlib identity apart |
| GuardLaws.LatestSetAuthWins | common/pkg/auth/context.go:30-71 | after any number of writes both readers give the latest, and other values survive |
| GuardLaws.SubjectComesFromTheClaims | common/pkg/auth/context.go:73-112 | after authentication a subject is found iff the claims carried one, and it is the same; otherwise 401 or 403 |
| GuardLaws.ClientSelfExactly | common/pkg/auth/auth.go:107-138 | with employees disallowed it passes iff the subject is a client and the parameter parses to its id; the decimal rendering of the id always does |
| GuardLaws.ClientSelfUnderAnyOf | common/pkg/auth/auth.go:155-170 | inside `AnyOf` it passes iff employees are allowed and the identity is one |
| GuardLaws.OwnIdIsRefusedUnderAnyOf | common/pkg/auth/auth.go:155-170 | a client with its own id in the path passes the check itself and not the same check inside `AnyOf` |
| GuardLaws.AnyOfIsItsLeaves | common/pkg/auth/auth.go:155-175 | nesting to any depth is a disjunction of the leaves, each on a probe |
| GuardLaws.MonotoneInPermissions | common/pkg/auth/auth.go:72-78 | more permissions never lose access through any guard tree |
| GuardLaws.PermissionListsAreSets | common/pkg/auth/auth.go:72-78 | order and repetition of held and of required permissions never matter |
| GuardLaws.AnyOfAuthenticatesNobody | common/pkg/auth/auth.go:157-174 | authentication tried inside `AnyOf` leaves the outer request unauthenticated, so a guard behind it rejects |
| GuardAnswers.AuthenticationKnowsTheClaims | common/pkg/auth/auth.go:34-57 | behind the middleware both stores hold the identity id, type, client id and employee id of the token's claims and exactly the loaded permissions |
| GuardAnswers.FailedLogin | common/pkg/auth/auth.go:20-46 | a failed login stops any chain with nobody authenticated, and 401, or 500 if an accepted token's permissions could not be loaded |
| GuardAnswers.GuardedByClaims | common/pkg/auth/auth.go:63-138 | behind the middleware a guard lets through exactly the claims with all required loaded permissions, one of the allowed types, or the own client id in the path |
| GuardAnswers.EitherByClaims | common/pkg/auth/auth.go:155-175 | `AnyOf` behind the middleware lets through exactly if one of its guards grants the claims without path parameters, else 403 |
| GuardAnswers.PermissionRouteAnswers | common/pkg/errors/errors.go:141-163 | a permission-guarded route answers 200 exactly for a login that holds every required permission, else 401, 500 or 403 |
| GuardAnswers.FailingEndpointAnswers | common/pkg/errors/errors.go:150-161 | an endpoint's error is answered with the status of its outermost application error through any wrappers, else 500 |
| RequestContext.BearerTokenExactly | common/pkg/auth/auth.go:20-32 | a token is found exactly behind a scheme that spells "bearer" in any case |
| RequestContext.BearerInEitherCase | common/pkg/auth/auth.go:27-32 | the scheme is six letters spelling "bearer", each in either case; anything else is 401 |
| RequestContext.ParseUintInvertsDecimal | common/pkg/auth/auth.go:125-134 | every 64-bit id is the parse of its decimal rendering |
| Identity.SubjectIDFromClaims | common/pkg/auth/permission_subject.go:9-30 | fails iff claims are missing or of unsupported type; else gives the id of the claims' own type if present |
| Identity.SetSubjectIDOnClaims | common/pkg/auth/permission_subject.go:32-49 | sets the id of one type and clears the other; a refused call changes nothing |
| Identity.LastAssignmentWins | common/pkg/auth/permission_subject.go:9-49 | over any sequence of calls the last accepted id is held, exactly one id is set, and it is read back iff the claims' type is the accepted one |
| Identity.ClientTypedClaimsLoseAnEmployee | common/pkg/auth/permission_subject.go:9-49 | client-typed claims hold an assigned employee id and read back without a subject |
| Identity.SubjectSurvivesTheWire | services/user-service/internal/grpc/permission_service.go:22-32 | the permission service rebuilds the caller's subject iff it is not a present zero |
| AppErrors.ChainShape | common/pkg/errors/errors.go:72-76 | the search through a chain of any depth finds the outermost application error or nothing |
| AppErrors.WrappersAreTransparent | common/pkg/errors/errors.go:58-95 | any number of wrappers leaves both statuses as they were |
| AppErrors.OnlyOutermostMatters | common/pkg/errors/errors.go:72-95 | the status does not depend on causes or wrappers |
| AppErrors.MapsAgreeExactly | services/banking-service/internal/grpc/banking_service.go:352-366 | the settlement map and the generic map give one code iff the outermost status is not 400, 401, 403, 409, 429 or 503 |
| AppErrors.CodesOfStatuses | services/banking-service/internal/grpc/banking_service.go:352-366 | which gRPC code each status gets from either map, through any wrappers, with its own message |
| AppErrors.CodesOfOtherErrors | common/pkg/errors/errors.go:72-76 | any other error is internal, with its text |
| TradeSettlement.BuildTransaction | services/banking-service/internal/grpc/banking_service.go:144-222 | refuses with the first obstacle met, else builds the entry whose bank leg is the requested amount |
| TradeSettlement.ExecuteTradeSettlement | services/banking-service/internal/grpc/banking_service.go:144-239 | adds exactly one entry iff nothing stands in the way, repeats its terms in the response, and keeps it when processing fails |
| TradeSettlement.ProcessTradeSettlement | services/banking-service/internal/service/transaction_processor.go:203-245 | moves both balances of both accounts and completes the entry, or leaves every table as it was |
| TradeAnswers.RefusalCodes | services/banking-service/internal/grpc/banking_service.go:145-226 | which gRPC code a request is refused with, by the first thing that is wrong, and that nothing else refuses it |
| TradeAnswers.FailuresRecordNothing | services/banking-service/internal/grpc/banking_service.go:163-226 | a request is recorded iff nothing else refuses it and no repository call fails; a failing call is an internal error |
| TradeAnswers.CustomerLegAtTheRates | services/banking-service/internal/grpc/banking_service.go:201-212 | the customer's leg times the sell rate of its currency is the requested amount times the buy rate of the bank's, RSD counting one for one; within one currency it is the amount |
| TradeAnswers.ProcessingAnswers | services/banking-service/internal/service/transaction_processor.go:203-245 | processing succeeds iff the entry is open, between two accounts, and covered; then both balances of both accounts move by its amounts; else 400, or 500 without an entry |
| TradeAnswers.FailuresSettleNothing | services/banking-service/internal/service/transaction_processor.go:205-244 | a failing repository call settles nothing, with 500 or the driver's error |
| Text.TrimCutsSpace | services/banking-service/internal/grpc/banking_service.go:145-150 | trimming cuts white space off both ends and nothing else |
| Text.PaddingIsIgnored | services/banking-service/internal/grpc/banking_service.go:145-150 | padding does not matter |
| Text.UpperLetterByLetter | services/banking-service/internal/grpc/banking_service.go:150-150 | upper-casing moves the letters a to z and nothing else |
| Payments.CreatePayment | services/banking-service/internal/service/payment_service.go:62-157 | adds one open entry with the terms below or refuses with the first obstacle, and never an entry without its payment row |
| Payments.RecordShape | services/banking-service/internal/service/payment_service.go:62-134 | a recorded payment is covered by the payer and within each limit, carries its parties' currencies, delivers the converted amount, and charges on top 1.5 percent to the nearest hundredth exactly between local accounts of different currencies when the amount is positive and not exempt |
| PaymentAnswers.RecordAnswers | services/banking-service/internal/service/payment_service.go:62-157 | with which status a payment is refused and why, and the entry it gets otherwise |
| PaymentAnswers.FailuresRecordNothing | services/banking-service/internal/service/payment_service.go:63-152 | a failing repository call records neither entry nor payment and is 500 |
| PaymentAnswers.LocalPaymentAnswers | services/banking-service/internal/service/transaction_processor.go:52-140 | a local payment goes through iff it is open and can be paid, and else changes nothing; no reply of another bank matters |
| PaymentAnswers.FailuresPayNothing | services/banking-service/internal/service/transaction_processor.go:52-139 | a failing repository call leaves a local payment and all accounts as they were |
| PaymentAnswers.HandingOverAnswers | services/banking-service/internal/service/transaction_processor.go:149-201 | handing over leaves everything as it was iff the payment is accepted or the code is Unavailable, DeadlineExceeded or Canceled; any other answer, also without a code, rejects the entry |
| PaymentAnswers.HandingOverErrors | services/banking-service/internal/service/transaction_processor.go:247-259 | the status of the error for each code of a refusal |
| PaymentAnswers.ClosedIsNotHandedOver | services/banking-service/internal/service/transaction_processor.go:150-152 | a closed entry is not processed again: 400 |
| PaymentAnswers.OutcomeAnswers | services/banking-service/internal/service/payment_service.go:175-194 | an outcome closes an open entry as it says and leaves a closed one alone, both without an error |
| PaymentAnswers.UnknownEntry | services/banking-service/internal/service/transaction_processor.go:43-49 | an id without an entry is 500 |
| PaymentAnswers.FailuresCloseNothing | services/banking-service/internal/service/transaction_processor.go:170-179 | a failing repository call leaves a payment to another bank as it was |
| PaymentAnswers.ForeignExactly | services/banking-service/internal/model/account.go:46-48 | an account of another bank has 18 characters and does not start with 444 |
| Payments.ProcessPayment | services/banking-service/internal/service/transaction_processor.go:38-183 | settles an open local payment or leaves every table as it was; one to another bank moves nothing and is rejected on a definitive refusal only, when nothing else happens while it is handed over |
| Payments.MoveMoney | services/banking-service/internal/service/transaction_processor.go:63-136 | every check in order, then what is written is each account's net leg |
| Payments.WriteUpdates | services/banking-service/internal/service/transaction_processor.go:107-125 | the map of changes is applied in full in whatever order it is walked |
| Payments.FinalizeInterbankPayment | services/banking-service/internal/service/payment_service.go:175-194 | closes an open entry with the reported outcome and leaves a closed one alone |
| PaymentLaws.PaymentDelivers | services/banking-service/internal/service/transaction_processor.go:52-140 | recorded and then, after any run, processed, a local payment takes the amount and the fee from the payer, gives the recipient the amount converted at the rates of the request, passes an exchange through the bank's two accounts, and touches nobody else |
| PaymentLaws.HandingOver | services/banking-service/internal/service/transaction_processor.go:149-201 | a definitive refusal rejects an open payment for good, whatever runs and is reported later; any other reply changes nothing and leaves it to the first outcome reported |
| PaymentLaws.OutcomeIsFinal | services/banking-service/internal/service/payment_service.go:183-185 | the first reported outcome stands after any run of transactions, one after the other |
| PaymentLaws.OutcomeKeepsBooksExactly | services/banking-service/internal/service/payment_service.go:175-194 | reported for any open entry, an outcome keeps the books balanced iff it is a failure, or the entry is a payment to another bank, or it would move nothing on any account |
| PaymentLaws.SixtyThatNeverMoved | services/banking-service/internal/service/payment_service.go:175-194 | a success reported for an open settlement or an open local payment of 60 unbalances the books |
| PaymentLimits.LimitsNeverFill | services/banking-service/internal/service/transaction_processor.go:74-81 | after any run an account refuses a payment for its limits iff it exceeds the room there was before the run |
| PaymentLimits.LimitsDoNotAddUp | services/banking-service/internal/service/transaction_processor.go:74-81 | a payment within the limits can be made any number of times while the money lasts, so the sum spent is any multiple of it |
| PaymentLimits.LimitsBoundTheSumExactly | services/banking-service/internal/service/transaction_processor.go:69-81 | with another account to pay to, every run that adds nothing to a customer's account spends within its room iff there is no room or no more available than room |
| PaymentLimits.SpendingWithinRoom | services/banking-service/internal/service/transaction_processor.go:69-81 | the sufficient half, whether there is another account or not |
| PaymentLimits.TwoPaymentsExceedTheRoom | services/banking-service/internal/service/transaction_processor.go:69-81 | otherwise a run of two payments that exceeds the room |
| PaymentLimits.ThreeHundredWithinOneHundred | services/banking-service/internal/service/transaction_processor.go:74-81 | three payments of 100 under limits of 100 spend 300 |
| PaymentAgreement.AgreementExactly | services/banking-service/internal/service/transaction_processor.go:149-183 | a step makes a closed entry and the posting that names it disagree iff it is one of the three that divide them |
| PaymentAgreement.AgreementThroughoutExactly | services/banking-service/internal/service/payment_service.go:175-194 | over any run they agree after every step iff no step divides them |
| PaymentAgreement.SecondHandingOverDivides | services/banking-service/internal/service/transaction_processor.go:149-183 | a payment handed over again and refused after its posting was prepared ends rejected although its money leaves |
| PaymentAgreement.OutgoingPaymentTakesItsAmount | services/banking-service/internal/service/interbank_cash_service.go:116-212 | prepared with the payment's own terms, the posting commits after any run and takes exactly the payment's amount from the payer |
| JournalLaws.RecordedExactly | services/banking-service/internal/grpc/banking_service.go:145-226 | the journal grows by one iff a closed list of conditions on request, accounts, rates and repositories holds |
| JournalLaws.NetIsTheSumOfCalls | services/banking-service/internal/grpc/banking_service.go:187-226 | over any run an account's net recorded position grows by the legs of the recorded calls only |
| JournalLaws.BankPositionIsIndependentOfRates | services/banking-service/internal/grpc/banking_service.go:187-222 | a settlement account's net position is bought minus sold amounts in its currency, at any rates |
| JournalLaws.BankLegIsTheRequestedAmount | services/banking-service/internal/grpc/banking_service.go:201-222 | a call's leg on each settlement account is its signed requested amount or nothing |
| JournalLaws.CustomerLegIsTheConvertedAmount | services/banking-service/internal/grpc/banking_service.go:201-212 | the customer's leg is the requested amount converted from the settlement account's currency, paid on BUY and received on SELL |
| JournalLaws.OppositesCancel | services/banking-service/internal/grpc/banking_service.go:201-212 | a BUY and a SELL alike in all else cancel on every account |
| JournalLaws.PairedRunsCancel | services/banking-service/internal/grpc/banking_service.go:201-212 | a run whose calls pair off in any order leaves every net position as it was |
| JournalLaws.JournalStaysWellFormed | services/banking-service/internal/grpc/banking_service.go:214-226 | in every reachable state entries carry their accounts' currencies, one amount within one currency, and a positive leg on a settlement account |
| JournalLaws.EveryEntryIsACall | services/banking-service/internal/grpc/banking_service.go:214-226 | every settlement entry that a run adds is, but for its status, the entry of one of its recorded calls at that call's rates |
| JournalLaws.EntriesShowTheirRequests | services/banking-service/internal/grpc/banking_service.go:145-222 | its bank leg is the positive requested amount on the account of the request's normalised trade currency, and its other leg is that amount converted, on the requested account, on the side the direction says |
| JournalLaws.HistoryIsWrittenOnce | services/banking-service/internal/service/interbank_cash_service.go:191-244 | after any run of transactions, one after the other, a posting has exactly one history entry once committed, and none before or when a local payment started it |
| OtcFunds.ReserveFunds | services/banking-service/internal/service/otc_funds_service.go:34-145 | reserves once per execution id, answers repeats, refuses other parameters, and rolls back on failure |
| OtcFunds.ActOnFunds | services/banking-service/internal/service/otc_funds_service.go:147-302 | release, commit and refund move money only from the status they need, and never partly |
| OtcFunds.MoveMoney | services/banking-service/internal/service/otc_funds_service.go:161-297 | the row updates of each action, in the order in which they are checked and written |
| OtcFunds.ReserveShape | services/banking-service/internal/service/otc_funds_service.go:82-137 | a successful new reservation is between two different existing accounts, for one trade amount converted into each party's currency, available, and positive at positive rates |
| FundsAnswers.MalformedIsRefused | services/banking-service/internal/service/otc_funds_service.go:41-62 | a malformed request is refused with 400 |
| FundsAnswers.UsedIdAnswers | services/banking-service/internal/service/otc_funds_service.go:65-80 | a used execution id answers its reservation exactly for the same buyer, seller, amount and currency, and else 409 |
| FundsAnswers.NewIdAnswers | services/banking-service/internal/service/otc_funds_service.go:82-137 | a new id: 404, 500 or 400 for what is missing, not convertible or not available, else the row shows the request and the amount is held |
| FundsAnswers.FailuresReserveNothing | services/banking-service/internal/service/otc_funds_service.go:64-139 | a failing repository call reserves nothing and is 500 |
| OtcFunds.ActShape | services/banking-service/internal/service/otc_funds_service.go:317-355 | an action changes nothing or settles exactly the reservation its id names |
| FundsAnswers.ActionAnswers | services/banking-service/internal/service/otc_funds_service.go:147-302 | for each action and status: a repeat answers the row, a wrong status is 400, and the right one moves exactly the named amounts on the two accounts and nothing else |
| FundsAnswers.UnknownReservation | services/banking-service/internal/service/otc_funds_service.go:317-336 | 400 without an id and 404 without a reservation |
| FundsAnswers.FailuresSettleNothing | services/banking-service/internal/service/otc_funds_service.go:328-349 | a failing repository call settles nothing |
| InterbankCash.PreparePosting | services/banking-service/internal/service/interbank_cash_service.go:51-161 | prepares once per posting id, answers repeats, and holds a rolled back posting again |
| InterbankCash.DecidePosting | services/banking-service/internal/service/interbank_cash_service.go:163-310 | commit and rollback settle a prepared posting, repeat harmlessly and never reverse each other |
| InterbankCash.PickAccount | services/banking-service/internal/service/interbank_cash_service.go:358-379 | the single early-exit loop finds the preferred account |
| InterbankCash.PreferredAmongTheClients | services/banking-service/internal/service/interbank_cash_service.go:312-378 | of all accounts of the client, in whatever order they are returned, the one picked is active, in the posting's currency if the client has such an active account, else in RSD if it has one there, and none is picked only if none is active |
| InterbankCash.RecordPaymentHistory | services/banking-service/internal/service/interbank_cash_service.go:202-244 | writes one completed entry unless a local payment started the posting |
| InterbankCash.PostingTerms | services/banking-service/internal/service/interbank_cash_service.go:111-150 | a new posting freezes the request's amount converted into the currency of the account it resolves to |
| InterbankCash.HistoryAgreesWithTheBooks | services/banking-service/internal/service/interbank_cash_service.go:213-230 | the history shows the local account on the side that paid or received, with the amount its balance moved |
| InterbankCash.PrepareShape | services/banking-service/internal/service/interbank_cash_service.go:70-155 | an outgoing amount is held only if available, and a re-prepared row keeps its frozen amount |
| CashAnswers.NamedAccount | services/banking-service/internal/service/interbank_cash_service.go:321-330 | a named account is taken as it is, or 404 |
| CashAnswers.EmployeesAccount | services/banking-service/internal/service/interbank_cash_service.go:335-348 | an employee's posting is for the bank's own account of its currency |
| CashAnswers.ClientsAccount | services/banking-service/internal/service/interbank_cash_service.go:350-378 | a client's posting is for its preferred active account, else 400 or 404 |
| CashAnswers.MalformedIsRefused | services/banking-service/internal/service/interbank_cash_service.go:51-62 | a malformed request is refused with 400 |
| CashAnswers.UsedIdAnswers | services/banking-service/internal/service/interbank_cash_service.go:70-109 | a used posting id: 409 for another amount or currency, a repeat answered as it is, a rolled back one held again with its frozen amount |
| CashAnswers.NewIdAnswers | services/banking-service/internal/service/interbank_cash_service.go:111-155 | a new id: the row shows the request and the amount in the account's currency, and an outgoing one is held |
| CashAnswers.FailuresPrepareNothing | services/banking-service/internal/service/interbank_cash_service.go:65-155 | a failing repository call prepares nothing |
| InterbankCash.DecideShape | services/banking-service/internal/service/interbank_cash_service.go:163-310 | a decision changes nothing or settles exactly one prepared posting and its account |
| CashAnswers.CommitAnswers | services/banking-service/internal/service/interbank_cash_service.go:163-195 | for each status and balance: what a commit answers, moves and writes |
| CashAnswers.RollbackAnswers | services/banking-service/internal/service/interbank_cash_service.go:246-268 | likewise for a rollback |
| CashAnswers.UnknownPosting | services/banking-service/internal/service/interbank_cash_service.go:270-292 | 400 without an id and 404 without a posting |
| CashAnswers.FailuresDecideNothing | services/banking-service/internal/service/interbank_cash_service.go:280-305 | a failing repository call decides nothing |
| BankRuns.BooksAlwaysBalance | services/banking-service/internal/service/otc_funds_service.go:212-221 | after any run of transactions, one after the other and failing anywhere, every balance and available balance is accounted for exactly by the tables |
| BankRuns.StepFrame | services/banking-service/internal/service/otc_funds_service.go:149-159 | rows are never removed, change nothing but their status, and completed, released, refunded and committed rows are final |
| BankPromises.NobodyIsOverdrawn | services/banking-service/internal/service/transaction_processor.go:228-233 | with positive rates and payment amounts no run of transactions, one after the other, makes an available balance negative |
| BankPromises.PreparedPostingsCanAlwaysBeDecided | services/banking-service/internal/service/interbank_cash_service.go:116-118 | after any run of transactions, one after the other, a prepared posting, its amount frozen, can be rolled back, and committed if the banking transaction it names was there before the run or it names none; in general it can be committed iff that transaction is there by then |
| BankPromises.OutgoingPaymentGoesThrough | services/banking-service/internal/service/interbank_cash_service.go:163-212 | after any such run the prepared posting of a payment commits, moves exactly its amount, writes no second entry, and the reported success completes the payment's entry if it is open |
| BankPromises.ReservedFundsCanAlwaysBeSettled | services/banking-service/internal/service/otc_funds_service.go:212-229 | after any run of transactions, one after the other, reserved funds can be released and committed; a refund succeeds iff the seller has the money |
| BankPromises.ReservationsAreUndone | services/banking-service/internal/service/otc_funds_service.go:147-302 | reserve then release, and reserve then commit then refund, restore every account |
| BankPromises.RepeatedActionIsHarmless | services/banking-service/internal/service/otc_funds_service.go:149-252 | a repeated action changes nothing and gives the same answer |
| BankPromises.RepeatedDecisionIsHarmless | services/banking-service/internal/service/interbank_cash_service.go:163-256 | a retransmitted decision changes nothing and gives the same answer |
| Overlaps.WritesCover | services/banking-service/internal/repository/account_repository_impl.go:105-113 | a transaction changes nothing but the rows it is said to write and those it appends |
| Overlaps.WriteBackAtOnce | services/banking-service/internal/repository/account_repository_impl.go:105-113 | a transaction that nothing overlaps has its plain effect |
| Overlaps.OverlapKeepsBooksExactly | services/banking-service/internal/repository/account_repository_impl.go:84-113 | written back over what others have committed, also to its own rows, a transaction keeps the books balanced iff it fails on a taken key, or others moved the accounts it overwrites by exactly what they did to the rows it overwrites and nothing else with those rows |
| Overlaps.OverlapOnUnchangedRows | services/banking-service/internal/repository/account_repository_impl.go:84-113 | with its own rows unchanged that is: nobody has changed the balances it overwrites |
| Overlaps.TwiceFromOneReadBalances | services/banking-service/internal/repository/account_repository_impl.go:84-113 | a transaction carried out twice from one read keeps the books balanced |
| OverlapRuns.TwoReservationsLoseOne | services/banking-service/internal/service/otc_funds_service.go:64-137 | two reservations for one buyer computed from the same rows leave the books unbalanced |
| OverlapRuns.OneHundredCoversTwiceSixty | services/banking-service/internal/service/otc_funds_service.go:64-137 | a schedule that fails: of 100 two overlapping reservations of 60 are made, with 40 left available |
| OverlapRuns.UndisturbedScheduleIsSerial | services/banking-service/internal/repository/account_repository_impl.go:84-113 | a schedule of overlapping transactions in which nobody changes what another has read and not yet committed equals a run of some of them in commit order |
| OverlapRuns.UndisturbedSchedulesBalance | services/banking-service/internal/repository/account_repository_impl.go:84-113 | reconciliation holds after every such schedule |
| OverlapRuns.UndisturbedSchedulesStaySound | services/banking-service/internal/repository/account_repository_impl.go:84-113 | nobody is overdrawn by such a schedule, so the two-phase promises hold after it |
| OverlapLaws.OverlapKeepsHistoryExactly | services/banking-service/internal/service/interbank_cash_service.go:189-244 | an overlapping transaction keeps one history entry per committed posting that no local payment started iff it fails on a taken key or nobody has committed the posting it overwrites since it was read |
| OverlapLaws.OverlappingCommitsWriteTwice | services/banking-service/internal/service/interbank_cash_service.go:163-195 | two overlapping commits of one prepared posting write its history twice |
| OverlapLaws.SixtyShownTwice | services/banking-service/internal/service/interbank_cash_service.go:163-195 | such a schedule: 60 arrive and the history shows them twice |
| OverlapLaws.UndisturbedHistoryIsWrittenOnce | services/banking-service/internal/service/interbank_cash_service.go:191-244 | in a schedule that nobody disturbs each posting has its history exactly once |
| OverlapLaws.ClosedEntrySurvivesExactly | services/banking-service/internal/service/payment_service.go:175-194 | a closed entry survives an overlapping transaction iff that fails on a taken key, does not write the entry, or closes it in the same way |
| OverlapLaws.OutcomeSurvivesHandingOverExactly | services/banking-service/internal/service/transaction_processor.go:149-183 | a payment closed while it is handed over stays so iff it is not refused for good or was rejected anyway |
| OverlapLaws.RefusalOverwritesSuccess | services/banking-service/internal/service/transaction_processor.go:149-183 | a refusal that comes back after a success was reported rejects the payment |
| OverlapLaws.SixtyRefusedAfterSuccess | services/banking-service/internal/service/transaction_processor.go:149-183 | such a schedule for 60 to another bank |
| OverlapLaws.UndisturbedOutcomeIsFinal | services/banking-service/internal/service/payment_service.go:183-185 | in a schedule that nobody disturbs a closed entry stays as it was closed |
| OverlapLaws.UndisturbedPostingsCanBeDecided | services/banking-service/internal/service/interbank_cash_service.go:163-310 | after such a schedule a prepared posting whose named entry was there can be committed and rolled back |
| OverlapLaws.UndisturbedFundsCanBeSettled | services/banking-service/internal/service/otc_funds_service.go:147-302 | after such a schedule reserved funds can be released and committed |
| Conservation.WealthChangesByFlows | services/banking-service/internal/model/account.go:143-146 | the total balance of a currency changes only by settlements, commits and refunds, each by its amounts in that currency, and by no payment |
| Conservation.PaymentConserves | services/banking-service/internal/service/transaction_processor.go:96-133 | a payment conserves the total of every currency, also when it is exchanged through the bank's accounts, whoever plays its parts |
| Conservation.MoneyIsConserved | services/banking-service/internal/service/transaction_processor.go:232-233 | a run that settles no trade between two currencies and commits no cash conserves the total of every currency, payments with exchange included |
| ExchangeRates.QuotesAreOrderedExactlyWhenPositive | services/banking-service/internal/service/exchange_service.go:88-105 | a stored row has buy below middle below sell iff its quote is positive |
| ExchangeRates.QuotedAtTheCommission | services/banking-service/internal/service/exchange_service.go:88-105 | a row holds 0.985, 1 and 1.015 times the inverse of the quote |
| ExchangeRates.NoRoundTripGains | services/banking-service/internal/service/exchange_service.go:132-188 | with one rate table that has a spread, converting along any path of currencies back to the first never yields more than was put in |
| ExchangeRates.QuotedTablesHaveASpread | services/banking-service/internal/service/exchange_service.go:88-105 | tables whose rows were stored for positive quotes have a spread and positive rates |
| ExchangeRates.FeeIsTheCommission | services/banking-service/internal/service/exchange_service.go:155-162 | the fee is a whole number of hundredths within half a hundredth of 0.015 of a positive amount, and nothing on any other |
| ExchangeRates.ConvertKeepsSign | services/banking-service/internal/service/exchange_service.go:132-188 | conversion at positive rates keeps the sign of an amount |
| ExchangeRates.ConvertAtTheRates | services/banking-service/internal/service/exchange_service.go:132-188 | the converted amount times the sell rate of its currency is the amount times the buy rate of the other, RSD counting one for one; 500 without rates and 503 without a row |
| ExchangeRates.Round2IsNearest | services/banking-service/internal/dto/exchange_rate_response.go:59-61 | within half a hundredth, exact on whole hundredths, idempotent, odd, halves away from zero |
| ExchangeRates.Round2IsMonotone | services/banking-service/internal/dto/exchange_rate_response.go:59-61 | rounding keeps order |
| ExchangeRates.ToExchangeRatesResponse | services/banking-service/internal/dto/exchange_rate_response.go:31-48 | shows every row of a non-empty list in place, each of its own rates within half a hundredth, and keeps buy, middle and sell in order |
| AuditLog.Repository.Save | common/pkg/audit/repository.go:23-25 | appends one numbered and stamped entry, or nothing on failure |
| AuditLog.Repository.GetAll | common/pkg/audit/repository.go:27-56 | the conditions built one by one select exactly the wanted rows; total counts them and entries are the requested page of them |
| AuditLog.ConditionsCompose | common/pkg/audit/repository.go:31-44 | filters are conjunctive, each keeps table order, and their order and repetition do not matter |
| AuditLog.SavedEntryCounts | common/pkg/audit/repository.go:23-48 | an empty log has no wanted rows, and a saved entry is one more iff its action, employee and time, both ends of the dates included, are what the query asks for |
| AuditLog.SplitRangesOverlapAtTheSplit | common/pkg/audit/repository.go:39-44 | inclusive ends: splitting a range counts its instant twice |
| AuditLog.PagesCoverTheResult | common/pkg/audit/repository.go:50-51 | the pages up to the page count are the whole result in order, for every page size |
| AuditLog.PageBounds | common/pkg/audit/repository.go:50-51 | no page is too long, and exactly the pages up to the page count hold rows |
| Sequences.SliceRowByRow | common/pkg/audit/repository.go:50-51 | a page is the rows from its offset on, at most as many as its size says; no offset below zero and no limit below zero |
| AuditLog.AnswerIsDeterminedExactlyWithoutTies | common/pkg/audit/repository.go:50-51 | the whole ordering of the answer is determined iff no two different rows have one creation time |
| AuditLog.TiesRepeatRows | common/pkg/audit/repository.go:50-51 | with any tie and pages of one row, two queries can show one row on two pages |
| AuditPaging.SeparateQueriesFitTogether | common/pkg/audit/repository.go:50-55 | while nothing is saved and without any ties, page-by-page reading by separate queries delivers every wanted row once, newest first |
| AuditPaging.SeparatePagesFitExactly | common/pkg/audit/repository.go:50-55 | while nothing is saved, for every page size, reading page by page with separate queries delivers every wanted row once, however ties are broken, iff no tie lies across the end of a page |
| AuditPaging.TieAcrossPagesLosesRows | common/pkg/audit/repository.go:50-55 | while nothing is saved, answers that repeat one row and hide another, for every tie across the end of a page |
| AuditPaging.ReadInOrder | common/pkg/audit/repository.go:50-51 | while nothing is saved, ties or not, the creation times read are those of the ordered result |
| AuditPaging.WantedRowsHaveDistinctIDs | common/pkg/audit/repository.go:23-25 | the rows that any filter selects of what was saved have ids of their own |
| AuditPaging.FirstOfTwoShownTwice | common/pkg/audit/repository.go:50-55 | such answers for two rows of one time and pages of one row |
| AuditGrowth.GrowingPagesFitExactly | common/pkg/audit/repository.go:23-55 | while entries are saved between the queries, the pages are in the end the whole final result, however ties are broken, iff no tie lies across the end of a page and no wanted entry that sorts before the end of a page is saved after that page is read |
| AuditGrowth.UnsettledReadingFails | common/pkg/audit/repository.go:50-55 | answers that do not fit, wherever that fails |
| AuditGrowth.NewestEntrySpoilsReading | common/pkg/audit/repository.go:23-55 | a wanted entry saved after the first of several pages, and the newest by then, always breaks the condition |
| AuditGrowth.SavedEntryRepeatsARow | common/pkg/audit/repository.go:50-51 | it repeats the last row of each full page on the next one and is itself never shown |
| AuditGrowth.WantedRowsGrow | common/pkg/audit/repository.go:23-48 | saving adds the wanted ones of the saved entries to the end of the wanted rows |
| TaxListing.ListTaxUsers | services/trading-service/handler/tax_handler.go:40-117 | either the clients then the actuaries in order, each with its own tax, or the first failure and no data; the page count fits the entries tightly |
| TaxListing.AppendEntries | services/trading-service/handler/tax_handler.go:63-100 | one entry per user in order, or the error of the first user without tax |
| TaxListing.ListingAnswers | services/trading-service/handler/tax_handler.go:48-116 | in terms of the request as it came: which page of which sources is asked for, that every user is listed with its own fields and tax, and which error stops it |
| TaxListing.AtMostTwoPages | services/trading-service/handler/tax_handler.go:107-108 | sources that keep to the page size leave at most two pages |
| TaxListing.TotalIsExactlyOnePage | services/trading-service/handler/tax_handler.go:56-116 | with paged user sources the total is that of the whole listing iff nobody is to be listed, or the first page is requested and holds all clients and all actuaries |
| TaxListing.TwoClientsCountAsOne | services/trading-service/handler/tax_handler.go:107-116 | asked for a first page of one of two clients, the answer says one user and one page |
| TaxListing.PageCountIsDetermined | services/trading-service/handler/tax_handler.go:107-108 | at most one page count fits a number of entries |

## Left out

- Transfers, loan instalments, and the verification of payments by code, which may reject one after three failures, are not part of this model; they process or close entries in the ways modelled for payments.
- The OTC saga, interbank message exchange, orders, funds and all HTTP and gRPC forwarding are not part of this model; of the interbank protocol only the local cash participant and the payer's side of a payment are.
- Payments have positive amounts in the lemmas on solvency, as the binding of the HTTP request demands; callers over gRPC are not checked for it.
- Changes to accounts other than by these services (opening, renaming, new limits) are not part of this model.
- IEEE arithmetic: amounts are real numbers, so rounding of sums, which the OTC commit check could meet, is not captured.
- BankRuns.BooksAlwaysBalance: speaks of database transactions that take effect one after the other, because the code does not keep the books balanced in general when they overlap; `Overlaps.OverlapKeepsBooksExactly` says when it does.
- BankPromises.NobodyIsOverdrawn: for the same reason speaks of transactions one after the other; `OverlapRuns.UndisturbedSchedulesStaySound` is what is proved of overlapping ones.
- BankPromises.PreparedPostingsCanAlwaysBeDecided: likewise; see `OverlapLaws.UndisturbedPostingsCanBeDecided`.
- BankPromises.OutgoingPaymentGoesThrough: likewise.
- BankPromises.ReservedFundsCanAlwaysBeSettled: likewise; see `OverlapLaws.UndisturbedFundsCanBeSettled`.
- JournalLaws.HistoryIsWrittenOnce: likewise; see `OverlapLaws.OverlapKeepsHistoryExactly`.
- PaymentLaws.OutcomeIsFinal: likewise; see `OverlapLaws.ClosedEntrySurvivesExactly`.
- Payments.ProcessPayment: takes the other bank's reply as given, so that nothing happens between reading the entry and writing it; what may happen there is in `OverlapLaws.OutcomeSurvivesHandingOverExactly`.
- Overlaps.OverlapKeepsBooksExactly: a transaction reads everything at one moment and writes at its commit; reads spread over time are not captured.
- AuditGrowth.GrowingPagesFitExactly: the reader stops at the page count that comes with the last answer; an answer and its count are of one moment.
- Update in place of shared identities: the identity is a value in both stores, and probes share the request as a value; nothing in the modelled code changes either after it is set.
- gin beyond handler list, index, keys, parameters, errors and abort; a chain must be shorter than gin's abort index, as gin itself demands on registration.
- Token verification and permission loading are arbitrary functions that may fail, one for each occurrence of the middleware.
- `RequireSupervisor` and `RequireAgent` of the trading service: further leaves of the same kind that ask a remote service.
- Trimming and case folding cover Latin-1 white space and ASCII letters only; the length of an account number is its number of characters.
- Rows whose status string is none of the named constants.
- Driver error texts are one fixed text, the cause of a gRPC error is its message, and the amounts in the two OTC consistency messages are left out.
- The payment row of an entry, with names, code and purpose, is the entry's `origin`; only which service wrote the entry is kept.
- Timestamps of application errors, logging, and the widths of `int32` and `int64` counters in the listings.
- TaxListing.ListTaxUsers: binding of the query string is not modelled, and the two loops of the handler are one method called twice.
