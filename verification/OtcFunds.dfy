/** OTC funds: reserve the buyer's money, then release it, commit it to the seller, or refund a commit. */
module OtcFunds {
  import opened Prelude
  import opened Sequences
  import opened Text
  import opened AppErrors
  import opened ExchangeRates
  import opened Books

  datatype ReserveRequest = ReserveRequest(
    executionID: string, buyer: string, seller: string, amount: real, tradeCurrency: string)

  datatype Action = Release | Commit | Refund

  function HasID(id: string): Reservation -> bool { (r: Reservation) => r.executionID == id }

  function Trimmed(req: ReserveRequest): ReserveRequest {
    req.(executionID := Trim(req.executionID), buyer := Trim(req.buyer), seller := Trim(req.seller))
  }

  function Malformed(req: ReserveRequest): Option<Err> {
    if req.executionID == "" then Some(BadRequest("execution id is required"))
    else if req.buyer == "" || req.seller == "" then Some(BadRequest("buyer and seller account numbers are required"))
    else if req.buyer == req.seller then Some(BadRequest("buyer and seller accounts must be different"))
    else if req.amount <= 0.0 then Some(BadRequest("amount must be greater than zero"))
    else if req.tradeCurrency !in ALLOWED_CURRENCIES then Some(BadRequest("unsupported trade currency"))
    else None
  }

  predicate Matches(r: Reservation, req: ReserveRequest) {
    r.buyer == req.buyer && r.seller == req.seller && r.tradeAmount == req.amount && r.tradeCurrency == req.tradeCurrency
  }

  function ConvertTradeAmount(amount: real, from: string, to: string, rates: RatesRead): Result<real, Err> {
    match Convert(amount, from, to, rates)
    case Ok(x) => Ok(x)
    case Fail(e) => Fail(InternalErr(e))
  }

  /** The reservation that a new execution id would get. */
  function NewReservation(accounts: map<string, Account>, req: ReserveRequest, rates: RatesRead, down: set<RepoOp>)
    : Result<Reservation, Err>
  {
    if FindBuyer in down then Fail(DB_FAILURE)
    else if req.buyer !in accounts then Fail(Missing("buyer account not found"))
    else if FindSeller in down then Fail(DB_FAILURE)
    else if req.seller !in accounts then Fail(Missing("seller account not found"))
    else
      var source := ConvertTradeAmount(req.amount, req.tradeCurrency, accounts[req.buyer].currency, rates);
      var destination := ConvertTradeAmount(req.amount, req.tradeCurrency, accounts[req.seller].currency, rates);
      if source.Fail? then Fail(source.error)
      else if destination.Fail? then Fail(destination.error)
      else if accounts[req.buyer].available < source.value then Fail(BadRequest("insufficient buyer funds"))
      else if UpdateBuyer in down || CreateReservation in down then Fail(DB_FAILURE)
      else Ok(Reservation(req.executionID, req.buyer, req.seller, req.amount, req.tradeCurrency,
                          source.value, accounts[req.buyer].currency,
                          destination.value, accounts[req.seller].currency, Reserved))
  }

  /** Reserving: a repeat of the same request is answered with the reservation it made, a different request
      under the same id is refused, and a new one moves its amount out of the buyer's available balance. */
  function Reserve(b: Books, request: ReserveRequest, rates: RatesRead, down: set<RepoOp>): (Books, Result<Reservation, Err>) {
    var req := Trimmed(request);
    if Malformed(req).Some? then (b, Fail(Malformed(req).value)) else FindOrReserve(b, req, rates, down)
  }

  function FindOrReserve(b: Books, req: ReserveRequest, rates: RatesRead, down: set<RepoOp>): (Books, Result<Reservation, Err>) {
    if FindReservation in down then (b, Fail(DB_FAILURE))
    else
      match IndexOf(b.reservations, HasID(req.executionID))
      case Some(i) =>
        if Matches(b.reservations[i], req) then (b, Ok(b.reservations[i]))
        else (b, Fail(Conflict("execution id already exists with different reservation parameters")))
      case None =>
        var outcome := NewReservation(b.accounts, req, rates, down);
        (if outcome.Ok? then WithReservation(b, outcome.value) else b, outcome)
  }

  function WithReservation(b: Books, r: Reservation): Books
    requires r.buyer in b.accounts
  {
    b.(accounts := b.accounts[r.buyer := Moved(b.accounts, r.buyer, 0.0, -r.sourceAmount)],
       reservations := b.reservations + [r])
  }

  /** The status an action leads to from the one it needs. */
  function Target(action: Action): ReservationStatus {
    match action case Release => Released case Commit => Committed case Refund => Refunded
  }

  function Origin(action: Action): ReservationStatus {
    match action case Release => Reserved case Commit => Reserved case Refund => Committed
  }

  function Refusal(action: Action, status: ReservationStatus): Err {
    var verb := match action case Release => "release" case Commit => "commit" case Refund => "refund";
    var state := match status
      case Reserved => "uncommitted" case Released => "released" case Committed => "committed" case Refunded => "refunded";
    BadRequest("cannot " + verb + " " + state + " OTC funds")
  }

  /** The accounts after an action on a reservation in the status that the action needs. */
  function Settle(action: Action, accounts: map<string, Account>, r: Reservation, down: set<RepoOp>)
    : Result<map<string, Account>, Err>
  {
    if FindBuyer in down then Fail(DB_FAILURE)
    else if r.buyer !in accounts then Fail(Missing("buyer account not found"))
    else if action.Release? then
      if UpdateBuyer in down then Fail(DB_FAILURE)
      else Ok(accounts[r.buyer := Moved(accounts, r.buyer, 0.0, r.sourceAmount)])
    else if FindSeller in down then Fail(DB_FAILURE)
    else if r.seller !in accounts then Fail(Missing("seller account not found"))
    else
      var buyer, seller := accounts[r.buyer], accounts[r.seller];
      if action.Commit? then
        if buyer.balance - buyer.available < r.sourceAmount then
          Fail(InternalErr(Plain("reserved buyer funds are inconsistent for OTC commit")))
        else if buyer.balance < r.sourceAmount then
          Fail(InternalErr(Plain("buyer balance is below reserved OTC funds")))
        else if UpdateBuyer in down || UpdateSeller in down then Fail(DB_FAILURE)
        else Ok(accounts[r.buyer := Moved(accounts, r.buyer, -r.sourceAmount, 0.0)]
                        [r.seller := Moved(accounts, r.seller, r.destinationAmount, r.destinationAmount)])
      else if seller.balance < r.destinationAmount || seller.available < r.destinationAmount then
        Fail(BadRequest("insufficient seller funds for refund"))
      else if UpdateBuyer in down || UpdateSeller in down then Fail(DB_FAILURE)
      else Ok(accounts[r.seller := Moved(accounts, r.seller, -r.destinationAmount, -r.destinationAmount)]
                      [r.buyer := Moved(accounts, r.buyer, r.sourceAmount, r.sourceAmount)])
  }

  /** One action on a reservation: from the status it needs it moves the money, from the status it leads
      to it repeats without effect, and from any other it is refused. */
  function Act(b: Books, action: Action, executionID: string, down: set<RepoOp>): (Books, Result<Reservation, Err>) {
    if Trim(executionID) == "" then (b, Fail(BadRequest("execution id is required")))
    else ActOn(b, action, Trim(executionID), down)
  }

  function ActOn(b: Books, action: Action, id: string, down: set<RepoOp>): (Books, Result<Reservation, Err>) {
    if FindReservation in down then (b, Fail(DB_FAILURE))
    else
      match IndexOf(b.reservations, HasID(id))
      case None => (b, Fail(Missing("OTC funds reservation not found")))
      case Some(i) =>
        var r := b.reservations[i];
        if r.status == Target(action) then
          if SaveReservation in down then (b, Fail(DB_FAILURE)) else (b, Ok(r))
        else if r.status != Origin(action) then (b, Fail(Refusal(action, r.status)))
        else
          match Settle(action, b.accounts, r, down)
          case Fail(e) => (b, Fail(e))
          case Ok(accounts) =>
            if SaveReservation in down then (b, Fail(DB_FAILURE))
            else
              var saved := r.(status := Target(action));
              (b.(accounts := accounts, reservations := b.reservations[i := saved]), Ok(saved))
  }

  /** Reserving either leaves the books alone or adds one fresh reservation and holds its amount: the trade
      amount in the buyer's currency, while the seller is due the same trade amount in its own. */
  lemma ReserveShape(b: Books, request: ReserveRequest, rates: RatesRead, down: set<RepoOp>)
    ensures var (after, result) := Reserve(b, request, rates, down);
      || after == b
      || (&& result.Ok?
          && var r := result.value;
          && r.status.Reserved? && r.buyer in b.accounts && r.seller in b.accounts && r.buyer != r.seller
          && IndexOf(b.reservations, HasID(r.executionID)).None?
          && r.sourceAmount <= b.accounts[r.buyer].available
          && r.sourceCurrency == b.accounts[r.buyer].currency && r.destinationCurrency == b.accounts[r.seller].currency
          && Convert(r.tradeAmount, r.tradeCurrency, r.sourceCurrency, rates) == Ok(r.sourceAmount)
          && Convert(r.tradeAmount, r.tradeCurrency, r.destinationCurrency, rates) == Ok(r.destinationAmount)
          && (Positive(rates) ==> r.sourceAmount > 0.0 && r.destinationAmount > 0.0)
          && after == WithReservation(b, r))
  {
    var req := Trimmed(request);
    var outcome := NewReservation(b.accounts, req, rates, down);
    if Malformed(req).None? && outcome.Ok? && Positive(rates) {
      ConvertKeepsSign(req.amount, req.tradeCurrency, b.accounts[req.buyer].currency, rates);
      ConvertKeepsSign(req.amount, req.tradeCurrency, b.accounts[req.seller].currency, rates);
    }
  }

  /** Acting either leaves the books alone or settles one reservation from the status the action needs. */
  lemma ActShape(b: Books, action: Action, executionID: string, down: set<RepoOp>)
    ensures var (after, result) := Act(b, action, executionID, down);
      || after == b
      || (&& IndexOf(b.reservations, HasID(Trim(executionID))).Some?
          && var i := IndexOf(b.reservations, HasID(Trim(executionID))).value;
          && var r := b.reservations[i];
          && r.status == Origin(action) && Settle(action, b.accounts, r, down).Ok?
          && after == Acted(b, action, i, down))
  {
  }

  function Acted(b: Books, action: Action, i: nat, down: set<RepoOp>): Books
    requires i < |b.reservations| && Settle(action, b.accounts, b.reservations[i], down).Ok?
  {
    b.(accounts := Settle(action, b.accounts, b.reservations[i], down).value,
       reservations := b.reservations[i := b.reservations[i].(status := Target(action))])
  }

  method ReserveFunds(db: Database, request: ReserveRequest, rates: RatesRead, down: set<RepoOp>)
    returns (result: Result<Reservation, Err>)
    requires Keyed(db.accounts)
    modifies db
    ensures (db.View(), result) == Reserve(old(db.View()), request, rates, down)
  {
    var req := request.(executionID := Trim(request.executionID),
                        buyer := Trim(request.buyer), seller := Trim(request.seller));
    if req.executionID == "" {
      return Fail(BadRequest("execution id is required"));
    }
    if req.buyer == "" || req.seller == "" {
      return Fail(BadRequest("buyer and seller account numbers are required"));
    }
    if req.buyer == req.seller {
      return Fail(BadRequest("buyer and seller accounts must be different"));
    }
    if req.amount <= 0.0 {
      return Fail(BadRequest("amount must be greater than zero"));
    }
    if req.tradeCurrency !in ALLOWED_CURRENCIES {
      return Fail(BadRequest("unsupported trade currency"));
    }
    var before := db.View();
    result := ReserveWithinTransaction(db, req, rates, down);
    if result.Fail? {
      db.Rollback(before);
    }
  }

  method ReserveWithinTransaction(db: Database, req: ReserveRequest, rates: RatesRead, down: set<RepoOp>)
    returns (result: Result<Reservation, Err>)
    requires Keyed(db.accounts)
    modifies db
    ensures result == FindOrReserve(old(db.View()), req, rates, down).1
    ensures result.Ok? ==> db.View() == FindOrReserve(old(db.View()), req, rates, down).0
  {
    if FindReservation in down {
      return Fail(DB_FAILURE);
    }
    var existing := IndexOf(db.reservations, HasID(req.executionID));
    if existing.None? {
      result := HoldFunds(db, req, rates, down);
    } else if Matches(db.reservations[existing.value], req) {
      result := Ok(db.reservations[existing.value]);
    } else {
      result := Fail(Conflict("execution id already exists with different reservation parameters"));
    }
  }

  method HoldFunds(db: Database, req: ReserveRequest, rates: RatesRead, down: set<RepoOp>)
    returns (result: Result<Reservation, Err>)
    requires Keyed(db.accounts)
    modifies db
    ensures result == NewReservation(old(db.accounts), req, rates, down)
    ensures result.Ok? ==> db.View() == WithReservation(old(db.View()), result.value)
  {
    if FindBuyer in down {
      return Fail(DB_FAILURE);
    }
    if req.buyer !in db.accounts {
      return Fail(Missing("buyer account not found"));
    }
    var buyer := db.accounts[req.buyer];
    if FindSeller in down {
      return Fail(DB_FAILURE);
    }
    if req.seller !in db.accounts {
      return Fail(Missing("seller account not found"));
    }
    var seller := db.accounts[req.seller];
    var source := ConvertTradeAmount(req.amount, req.tradeCurrency, buyer.currency, rates);
    if source.Fail? {
      return Fail(source.error);
    }
    var destination := ConvertTradeAmount(req.amount, req.tradeCurrency, seller.currency, rates);
    if destination.Fail? {
      return Fail(destination.error);
    }
    if buyer.available < source.value {
      return Fail(BadRequest("insufficient buyer funds"));
    }
    if UpdateBuyer in down {
      return Fail(DB_FAILURE);
    }
    db.UpdateBalance(buyer.(available := buyer.available - source.value));
    if CreateReservation in down {
      return Fail(DB_FAILURE);
    }
    var reservation := Reservation(
      req.executionID, buyer.number, seller.number, req.amount, req.tradeCurrency,
      source.value, buyer.currency, destination.value, seller.currency, Reserved);
    db.reservations := db.reservations + [reservation];
    return Ok(reservation);
  }

  /** `Release`, `Commit` and `Refund` of the service. */
  method ActOnFunds(db: Database, action: Action, executionID: string, down: set<RepoOp>)
    returns (result: Result<Reservation, Err>)
    requires Keyed(db.accounts)
    modifies db
    ensures (db.View(), result) == Act(old(db.View()), action, executionID, down)
  {
    var id := Trim(executionID);
    if id == "" {
      return Fail(BadRequest("execution id is required"));
    }
    var before := db.View();
    result := ActWithinTransaction(db, action, id, down);
    if result.Fail? {
      db.Rollback(before);
    }
  }

  method ActWithinTransaction(db: Database, action: Action, id: string, down: set<RepoOp>)
    returns (result: Result<Reservation, Err>)
    requires Keyed(db.accounts)
    modifies db
    ensures result == ActOn(old(db.View()), action, id, down).1
    ensures result.Ok? ==> db.View() == ActOn(old(db.View()), action, id, down).0
  {
    if FindReservation in down {
      return Fail(DB_FAILURE);
    }
    var found := IndexOf(db.reservations, HasID(id));
    if found.None? {
      return Fail(Missing("OTC funds reservation not found"));
    }
    var reservation := db.reservations[found.value];
    if reservation.status != Target(action) {
      if reservation.status != Origin(action) {
        return Fail(Refusal(action, reservation.status));
      }
      var error := MoveMoney(db, action, reservation, down);
      if error.Some? {
        return Fail(error.value);
      }
      reservation := reservation.(status := Target(action));
    }
    if SaveReservation in down {
      return Fail(DB_FAILURE);
    }
    ghost var stored := db.reservations;
    db.reservations := db.reservations[found.value := reservation];
    assert reservation == stored[found.value] ==> db.reservations == stored;
    return Ok(reservation);
  }

  method MoveMoney(db: Database, action: Action, r: Reservation, down: set<RepoOp>) returns (error: Option<Err>)
    requires Keyed(db.accounts)
    modifies db`accounts
    ensures match Settle(action, old(db.accounts), r, down)
      case Ok(accounts) => error == None && db.accounts == accounts
      case Fail(e) => error == Some(e)
  {
    if FindBuyer in down {
      return Some(DB_FAILURE);
    }
    if r.buyer !in db.accounts {
      return Some(Missing("buyer account not found"));
    }
    var buyer := db.accounts[r.buyer];
    if action.Release? {
      if UpdateBuyer in down {
        return Some(DB_FAILURE);
      }
      db.UpdateBalance(buyer.(available := buyer.available + r.sourceAmount));
      return None;
    }
    if FindSeller in down {
      return Some(DB_FAILURE);
    }
    if r.seller !in db.accounts {
      return Some(Missing("seller account not found"));
    }
    var seller := db.accounts[r.seller];
    if action.Commit? {
      if buyer.balance - buyer.available < r.sourceAmount {
        return Some(InternalErr(Plain("reserved buyer funds are inconsistent for OTC commit")));
      }
      if buyer.balance < r.sourceAmount {
        return Some(InternalErr(Plain("buyer balance is below reserved OTC funds")));
      }
      buyer := buyer.(balance := buyer.balance - r.sourceAmount);
      seller := seller.(balance := seller.balance + r.destinationAmount, available := seller.available + r.destinationAmount);
      if UpdateBuyer in down {
        return Some(DB_FAILURE);
      }
      db.UpdateBalance(buyer);
      if UpdateSeller in down {
        return Some(DB_FAILURE);
      }
      db.UpdateBalance(seller);
    } else {
      if seller.balance < r.destinationAmount || seller.available < r.destinationAmount {
        return Some(BadRequest("insufficient seller funds for refund"));
      }
      seller := seller.(balance := seller.balance - r.destinationAmount, available := seller.available - r.destinationAmount);
      buyer := buyer.(balance := buyer.balance + r.sourceAmount, available := buyer.available + r.sourceAmount);
      if UpdateSeller in down {
        return Some(DB_FAILURE);
      }
      db.UpdateBalance(seller);
      if UpdateBuyer in down {
        return Some(DB_FAILURE);
      }
      db.UpdateBalance(buyer);
    }
    return None;
  }
}
