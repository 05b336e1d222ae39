/** What callers of the OTC funds service are answered, in terms of requests and rows alone. */
module FundsAnswers {
  import opened Prelude
  import opened Sequences
  import opened Text
  import opened AppErrors
  import opened ExchangeRates
  import opened Books
  import Otc = OtcFunds

  /** Ids and two different accounts are named, the amount is positive, and the currency is one the bank knows. */
  predicate WellFormed(req: Otc.ReserveRequest) {
    && Trim(req.executionID) != "" && Trim(req.buyer) != "" && Trim(req.seller) != "" && Trim(req.buyer) != Trim(req.seller)
    && req.amount > 0.0 && IsKnown(req.tradeCurrency)
  }

  /** `i` is the first reservation with this id, surrounding space aside. */
  predicate Names(b: Books, executionID: string, i: nat) {
    && i < |b.reservations| && b.reservations[i].executionID == Trim(executionID)
    && forall k :: 0 <= k < i ==> b.reservations[k].executionID != Trim(executionID)
  }

  predicate NamesNone(b: Books, executionID: string) {
    forall r :: r in b.reservations ==> r.executionID != Trim(executionID)
  }

  lemma NamedIsFound(b: Books, executionID: string, i: nat)
    requires Names(b, executionID, i)
    ensures IndexOf(b.reservations, Otc.HasID(Trim(executionID))) == Some(i)
  {
    assert Otc.HasID(Trim(executionID))(b.reservations[i]);
  }

  lemma NoneIsFound(b: Books, executionID: string)
    requires NamesNone(b, executionID)
    ensures IndexOf(b.reservations, Otc.HasID(Trim(executionID))).None?
  {
    assert forall i :: 0 <= i < |b.reservations| ==> b.reservations[i] in b.reservations;
  }

  // ----- reserving -----

  /** A malformed request is refused with 400, whatever else holds. */
  lemma MalformedIsRefused(b: Books, req: Otc.ReserveRequest, rates: RatesRead, down: set<RepoOp>)
    requires !WellFormed(req)
    ensures var (c, result) := Otc.Reserve(b, req, rates, down);
      c == b && result.Fail? && HasStatus(result.error, 400)
  {
    WellFormedExactly(req);
  }

  lemma WellFormedExactly(req: Otc.ReserveRequest)
    ensures var refusal := Otc.Malformed(Otc.Trimmed(req));
      (refusal.None? <==> WellFormed(req)) && (refusal.Some? ==> HasStatus(refusal.value, 400))
  {
    EightCurrencies(req.tradeCurrency);
  }

  /** An execution id stands for one request for good: asked again for the same buyer, seller, amount and
      currency it answers with its reservation, and asked for anything else it is refused with 409. */
  lemma UsedIdAnswers(b: Books, req: Otc.ReserveRequest, rates: RatesRead, down: set<RepoOp>, i: nat)
    requires WellFormed(req) && Names(b, req.executionID, i) && FindReservation !in down
    ensures var (c, result) := Otc.Reserve(b, req, rates, down);
      var r := b.reservations[i];
      && c == b
      && (result == Ok(r) <==>
          r.buyer == Trim(req.buyer) && r.seller == Trim(req.seller) && r.tradeAmount == req.amount && r.tradeCurrency == req.tradeCurrency)
      && (result != Ok(r) ==> result.Fail? && HasStatus(result.error, 409))
  {
    NamedIsFound(b, req.executionID, i);
    WellFormedExactly(req);
  }

  /** What `amount` of the trade currency is worth on account `n`, if it can be converted. */
  function Worth(b: Books, n: string, req: Otc.ReserveRequest, rates: RatesRead): Result<real, Err>
    requires n in b.accounts
  {
    Convert(req.amount, req.tradeCurrency, b.accounts[n].currency, rates)
  }

  /** A new execution id: 404 for an account that does not exist, 500 for an amount that cannot be converted,
      400 for a buyer who has too little available; else the row shows the request, and the amount in the
      buyer's currency is no longer available to the buyer. */
  lemma NewIdAnswers(b: Books, req: Otc.ReserveRequest, rates: RatesRead)
    requires WellFormed(req) && NamesNone(b, req.executionID)
    ensures var (c, result) := Otc.Reserve(b, req, rates, {});
      var buyer, seller := Trim(req.buyer), Trim(req.seller);
      if buyer !in b.accounts || seller !in b.accounts then c == b && result.Fail? && HasStatus(result.error, 404)
      else if Worth(b, buyer, req, rates).Fail? || Worth(b, seller, req, rates).Fail? then
        c == b && result.Fail? && HasStatus(result.error, 500)
      else if b.accounts[buyer].available < Worth(b, buyer, req, rates).value then
        c == b && result.Fail? && HasStatus(result.error, 400)
      else
        && result == Ok(Reservation(Trim(req.executionID), buyer, seller, req.amount, req.tradeCurrency,
                                    Worth(b, buyer, req, rates).value, b.accounts[buyer].currency,
                                    Worth(b, seller, req, rates).value, b.accounts[seller].currency, Reserved))
        && c.reservations == b.reservations + [result.value] && c.journal == b.journal && c.postings == b.postings
        && c.accounts == b.accounts[buyer := b.accounts[buyer].(
             available := b.accounts[buyer].available - Worth(b, buyer, req, rates).value)]
  {
    NoneIsFound(b, req.executionID);
    WellFormedExactly(req);
  }

  /** A repository call that fails can only turn the answer into 500, and leaves nothing behind. Nothing is
      reserved without the lookups, the buyer's update and the insert. */
  lemma FailuresReserveNothing(b: Books, req: Otc.ReserveRequest, rates: RatesRead, down: set<RepoOp>)
    ensures var (c, result), without := Otc.Reserve(b, req, rates, down), Otc.Reserve(b, req, rates, {});
      && (without == (c, result) || (c == b && result.Fail? && (without.1.Fail? || HasStatus(result.error, 500))))
      && (c != b ==> down !! {FindReservation, FindBuyer, FindSeller, UpdateBuyer, CreateReservation})
  {
    FailuresOfNewReservation(b.accounts, Otc.Trimmed(req), rates, down);
  }

  lemma FailuresOfNewReservation(accounts: map<string, Account>, req: Otc.ReserveRequest, rates: RatesRead, down: set<RepoOp>)
    ensures var made, without := Otc.NewReservation(accounts, req, rates, down), Otc.NewReservation(accounts, req, rates, {});
      && (made == without || (made.Fail? && (without.Fail? || HasStatus(made.error, 500))))
      && (made.Ok? ==> down !! {FindBuyer, FindSeller, UpdateBuyer, CreateReservation})
  {
  }

  // ----- acting -----

  /** From which status an action moves the money, and to which. */
  predicate Leads(action: Otc.Action, from: ReservationStatus, to: ReservationStatus) {
    match action
    case Release => from == Reserved && to == Released
    case Commit => from == Reserved && to == Committed
    case Refund => from == Committed && to == Refunded
  }

  /** The action cannot go through in this state of the accounts: 404 for an account that does not exist, 500 for
      a commit that the holds do not cover, and 400 for a refund that the seller cannot pay. */
  function Hindrance(accounts: map<string, Account>, action: Otc.Action, r: Reservation): Option<int> {
    if r.buyer !in accounts || (!action.Release? && r.seller !in accounts) then Some(404)
    else if action.Commit? then
      var buyer := accounts[r.buyer];
      if buyer.balance - buyer.available < r.sourceAmount || buyer.balance < r.sourceAmount then Some(500) else None
    else if action.Refund? then
      var seller := accounts[r.seller];
      if seller.balance < r.destinationAmount || seller.available < r.destinationAmount then Some(400) else None
    else None
  }

  predicate Moves(before: map<string, Account>, after: map<string, Account>, n: string, balance: real, available: real)
    requires n in before
  {
    && n in after
    && after[n] == before[n].(balance := before[n].balance + balance, available := before[n].available + available)
  }

  /** What each action does to the two accounts, and that it does nothing to any other. */
  predicate Settled(before: map<string, Account>, after: map<string, Account>, action: Otc.Action, r: Reservation)
    requires r.buyer in before && (!action.Release? ==> r.seller in before)
  {
    && (match action
        case Release => Moves(before, after, r.buyer, 0.0, r.sourceAmount)
        case Commit => Moves(before, after, r.buyer, -r.sourceAmount, 0.0) &&
                       Moves(before, after, r.seller, r.destinationAmount, r.destinationAmount)
        case Refund => Moves(before, after, r.buyer, r.sourceAmount, r.sourceAmount) &&
                       Moves(before, after, r.seller, -r.destinationAmount, -r.destinationAmount))
    && forall n :: n in before && n != r.buyer && (n != r.seller || action.Release?) ==> n in after && after[n] == before[n]
  }

  lemma SettlingAnswers(accounts: map<string, Account>, action: Otc.Action, r: Reservation)
    requires r.buyer != r.seller
    ensures var settled, hindrance := Otc.Settle(action, accounts, r, {}), Hindrance(accounts, action, r);
      if hindrance.Some? then settled.Fail? && HasStatus(settled.error, hindrance.value)
      else settled.Ok? && Settled(accounts, settled.value, action, r)
  {
  }

  /** The three actions, spelled out. A reservation in the status that the action leads to answers a repeat; one
      in the status that it needs is settled unless something hinders it; from any other it is refused with 400. */
  lemma ActionAnswers(b: Books, action: Otc.Action, executionID: string, i: nat)
    requires Trim(executionID) != "" && Names(b, executionID, i) && b.reservations[i].buyer != b.reservations[i].seller
    ensures var (c, result), r := Otc.Act(b, action, executionID, {}), b.reservations[i];
      if exists from :: Leads(action, from, r.status) then c == b && result == Ok(r)
      else if !exists to :: Leads(action, r.status, to) then c == b && result.Fail? && HasStatus(result.error, 400)
      else if Hindrance(b.accounts, action, r).Some? then
        c == b && result.Fail? && HasStatus(result.error, Hindrance(b.accounts, action, r).value)
      else
        && result.Ok? && result.value == r.(status := result.value.status) && Leads(action, r.status, result.value.status)
        && c == b.(accounts := c.accounts, reservations := b.reservations[i := result.value])
        && Settled(b.accounts, c.accounts, action, r)
  {
    NamedIsFound(b, executionID, i);
    StatusCases(action, b.reservations[i].status);
    SettlingAnswers(b.accounts, action, b.reservations[i]);
  }

  lemma StatusCases(action: Otc.Action, s: ReservationStatus)
    ensures (exists from :: Leads(action, from, s)) <==> s == Otc.Target(action)
    ensures (exists to :: Leads(action, s, to)) <==> s == Otc.Origin(action)
    ensures Leads(action, Otc.Origin(action), Otc.Target(action))
  {
    assert Leads(action, Otc.Origin(action), Otc.Target(action));
  }

  /** Without an id the answer is 400, and without a reservation of that id 404. */
  lemma UnknownReservation(b: Books, action: Otc.Action, executionID: string)
    ensures Trim(executionID) == "" ==>
      var (c, result) := Otc.Act(b, action, executionID, {}); c == b && result.Fail? && HasStatus(result.error, 400)
    ensures Trim(executionID) != "" && NamesNone(b, executionID) ==>
      var (c, result) := Otc.Act(b, action, executionID, {}); c == b && result.Fail? && HasStatus(result.error, 404)
  {
    if NamesNone(b, executionID) {
      NoneIsFound(b, executionID);
    }
  }

  /** A repository call that fails can only turn the answer into a failure, and leaves nothing behind. No money
      moves without the lookups, the updates of the accounts that move, and the update of the row. */
  lemma FailuresSettleNothing(b: Books, action: Otc.Action, executionID: string, down: set<RepoOp>)
    ensures var (c, result), without := Otc.Act(b, action, executionID, down), Otc.Act(b, action, executionID, {});
      && (without == (c, result) || (c == b && result.Fail? && (without.1.Fail? || HasStatus(result.error, 500))))
      && (c != b ==> down !! {FindReservation, FindBuyer, UpdateBuyer, SaveReservation})
      && (c != b && !action.Release? ==> down !! {FindSeller, UpdateSeller})
  {
    var found := IndexOf(b.reservations, Otc.HasID(Trim(executionID)));
    if found.Some? {
      FailuresOfSettling(b.accounts, action, b.reservations[found.value], down);
    }
  }

  lemma FailuresOfSettling(accounts: map<string, Account>, action: Otc.Action, r: Reservation, down: set<RepoOp>)
    ensures var settled, without := Otc.Settle(action, accounts, r, down), Otc.Settle(action, accounts, r, {});
      && (settled == without || (settled.Fail? && (without.Fail? || HasStatus(settled.error, 500))))
      && (settled.Ok? ==> down !! {FindBuyer, UpdateBuyer})
      && (settled.Ok? && !action.Release? ==> down !! {FindSeller, UpdateSeller})
  {
  }
}
